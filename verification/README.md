# Shopify asset uploader: a Dafny model

This project models the core of a tool that sends product images to a
digital-asset service (DDA) and links them to Shopify products. It covers:

- **The partition store.** An asset or image keeps a slice of upload
  partitions. Each partition is a byte range of the open file, found
  linearly by id. `SetPartition` reads the range from the file and then
  replaces or appends the entry (`asset.go`, `image.go`).
- **The upload workflow** in `upload.go`. `UploadImage` runs three
  uploader steps and stops at the first failure. The file is always closed
  once the image exists. `AssociateImageWithShopifyProduct` parses the
  Shopify id and searches for the product at most ten times. It then
  associates the product exactly once.
- **The DDA client** in `client.go`:
  - the rate-limit retry loop of `send`;
  - metadata creation, which records ids and stores the announced partitions;
  - part upload, which takes an ETag from each `PUT` and writes back only
    when every upload succeeded;
  - the confirmation payload;
  - the association request;
  - the product search.
- **The Python helpers** `parseTags` and `image_title` (two copies of
  `upload_shopify.py`).

Go methods that change an `*Asset` and return an `error` are modelled as
pure functions. Each returns the new state together with an optional
error (`SetResult`, `Step`), so "an error leaves the store untouched" is a
postcondition. Remote services appear as parameters that fix their
answers in advance:

- the sequence of replies each `send` sees (metadata creation,
  confirmation, association, product listing), each call with its own
  expected status code;
- the answer to each part's `PUT`;
- the answers a lookup receives on each attempt.

The URLs built from a server-assigned asset id go through a model of Go's
URL parser, so an id that makes `http.NewRequest` fail is an error path
of the call.

The workflows record the calls they make, so "nothing else is called" is
part of each contract.

Modules:

- `Wrappers`, `Errors`: results, and the Go error chain (`Wrapped` plays the
  role of `fmt.Errorf("…: %w")`).
- `Partitions`: the partition record, `os.File.ReadAt`, and the store operations.
- `Assets`, `Images`: the constructors, which differ only in their MIME allow-list.
- `DdaSchema`: the request and response records of the service.
- `GoStrings`: `strings.Trim` with a one-character cut set.
- `GoURL`: when `net/url.Parse` (called by `http.NewRequest`) rejects a URL.
- `StrConv`: `strconv.Atoi` and its inverse `Itoa`.
- `Dda`: the client.
- `Upload`: the `upload.go` workflows.
- `DdaUpload`: `UploadImage` driven by the DDA client, end to end.
- `ShopifyScript`: `parseTags` and `image_title`.

## Model

| member | source | states |
|---|---|---|
| Partitions.ToInt64 | go/internal/asset/asset.go:102 | Go's `int64(uint64)` conversion is the unique int64 congruent to the value modulo 2^64. |
| Partitions.ReadAt | go/internal/asset/asset.go:101-107 | A positional read fails exactly when the offset is negative or a non-empty read runs past the end of the file. A successful read returns the full count and exactly the file's bytes at that offset. |
| Partitions.PartitionIDs | go/internal/asset/asset.go:70-80 | The id list has one entry per stored partition, in store order. The image store (image.go:66-76) is the same code. |
| Partitions.IndexOf | go/internal/asset/asset.go:87-91 | The linear search returns the first position holding the id, or proves that no entry has it. |
| Partitions.Partition | go/internal/asset/asset.go:82-94 | A lookup succeeds exactly when the id is listed. It returns the first entry with that id; otherwise it returns the not-found error for that id. The image store (image.go:78-90) is the same code. |
| Partitions.SetPartition | go/internal/asset/asset.go:96-124 | Success exactly when the id is positive and the range is non-empty and inside the file. A non-positive id and an empty range give their own errors. An error leaves the store unchanged. Success replaces the first entry with the id in place, or appends one, with the range's bytes as contents. The image store (image.go:92-120) is the same code. |
| Partitions.SetPartitionPreservesValid | go/internal/asset/asset.go:96-124 | Whatever partition is set, a store with unique positive ids whose contents match the file keeps both properties. |
| Partitions.SetThenGet | go/internal/asset/image.go:92-120 | After a successful set, looking up the id returns the partition just set, with its bytes read from the file. |
| Partitions.IndexOfFirst | go/internal/asset/asset.go:87-91 | Where the id first occurs at position j, the search returns j. |
| Partitions.FirstOfUnique | go/internal/asset/asset.go:82-94 | In a store with unique ids, looking up any entry's id returns that entry. |
| Partitions.SetExistingInPlace | go/internal/asset/asset.go:115-120 | Setting a copy of a stored entry that differs only in its ETag replaces that entry at its position and leaves the rest alone. |
| Partitions.SetKeepsOthers | go/internal/asset/asset.go:115-123 | Setting one id never changes what a lookup of another id returns. |
| Partitions.SetPartitionIDs | go/internal/asset/asset.go:115-123 | After a successful set, the id list is unchanged if the id was present; otherwise the new id is appended. |
| Assets.NewAsset | go/internal/asset/asset.go:34-62 | Construction succeeds exactly when the file stats, its MIME type is JPEG or MP4, and it opens. A stat failure, a disallowed type and an open failure each give their own error. The new asset has no ids and no partitions. |
| Assets.NewAssetValid | go/internal/asset/asset.go:53-61 | A new asset's empty store satisfies the store invariant. |
| Images.NewImage | go/internal/asset/image.go:33-58 | Same as NewAsset, but only JPEG is allowed: a stat failure, a non-JPEG type and an open failure each give their own error. |
| Images.ImageNarrowerThanAsset | go/internal/asset/image.go:39-42 | Every image that can be built is the asset NewAsset builds from the same inputs. An MP4 file is an asset but never an image. |
| Dda.Settle | go/internal/dda/client.go:322-356 | A reply ends `send` successfully exactly when it has the expected status and, when a target is given, a decodable body. An unexpected status is reported with both codes. |
| Dda.Send | go/internal/dda/client.go:309-357 | `send` re-sends exactly while the reply is a 429 that was not expected. It returns the verdict on the first other reply and reports how many sends it made. That reply is the one `Settled` picks. |
| Dda.SettlingIndex | go/internal/dda/client.go:322-329 | The position of the first reply, from a given one on, that is not a rejected 429; every reply before it is one. |
| Dda.Settled | go/internal/dda/client.go:322-329 | The reply `send` settles on is never a rejected 429. |
| Dda.Received | go/internal/dda/client.go:309-357 | `send` with a decode target succeeds exactly when the settled reply has the expected status and a decodable body, and then yields that body. Another status is reported with both codes. |
| Dda.Delivered | go/internal/dda/client.go:309-342 | `send` without a decode target succeeds exactly when the settled reply has the expected status, whatever its body. Another status is reported with both codes. |
| Dda.SendPostAsWritten | go/internal/dda/client.go:309-329 | `send` on a POST as written: it succeeds exactly when the first reply has the expected status (and a decodable body when decoding). A first 429 makes it fail with the transport error. This is the case of a re-send on a fresh HTTP/1.1 connection, where the drained body is refused. |
| Dda.SendOnDrainedIsAsWritten | go/internal/dda/client.go:315-328 | On reply sequences where every re-send after a first 429 is refused by the transport (the fresh-connection case), the retry loop ends exactly as the as-written POST send does. |
| Dda.DrainedSettlesOnTransportError | go/internal/dda/client.go:315-328 | On such sequences (the fresh-connection case), a first 429 makes the loop settle on the transport error. |
| Dda.Ingest | go/internal/dda/client.go:86-98 | Ingesting descriptors fails exactly when some descriptor has End 0, and then with the zero-length error. |
| Dda.CreateMetaData | go/internal/dda/client.go:49-101 | The post expects status 200 and decodes the body. If the settled reply is not a decodable 200, the asset is returned unchanged and the send error is wrapped "request failed". Otherwise the response's asset and upload ids are recorded, and the call fails exactly when some descriptor has End 0. Name, size, MIME type and file are never changed. |
| Dda.IngestPreservesValid | go/internal/dda/client.go:86-98 | Ingesting any descriptors keeps the store invariant. |
| Dda.CreateMetaDataPreservesValid | go/internal/dda/client.go:77-98 | Metadata creation keeps the store invariant, whatever the response. |
| Dda.IngestStopsAtFirstZero | go/internal/dda/client.go:87-90 | Nothing is rolled back. At the first End-0 descriptor the store keeps what the descriptors before it stored. |
| Dda.IngestSkipsEmptyRange | go/internal/dda/client.go:88-97 | A descriptor with End at least 1 and Start equal to End is skipped without an error. |
| Dda.IngestSkipsRejected | go/internal/dda/client.go:97 | A descriptor whose range is not inverted but which the store rejects is skipped, because the SetPartition error is ignored. |
| Dda.IngestStoresDistinct | go/internal/dda/client.go:86-98 | Storable descriptors with distinct new part numbers are all stored without error. The store's ids gain exactly those part numbers, in announcement order. |
| Dda.PartNumbers | go/internal/dda/client.go:92 | The announced part numbers, one per descriptor, in order. |
| GoStrings.Trim | go/internal/dda/client.go:176 | The result does not start or end with the cut character. The input is exactly a run of that character, then the result, then another run. |
| GoStrings.TrimUndoesWrapping | go/internal/dda/client.go:175-176 | Trimming quotes from any quote-wrapped value that does not itself start or end with a quote gives back the value. |
| GoStrings.TrimIdempotent | go/internal/dda/client.go:176 | Trimming twice is the same as trimming once. |
| Dda.ETagOf | go/internal/dda/client.go:175-176 | The recorded ETag does not start or end with a double quote. The header is exactly a run of quotes, the ETag, and another run of quotes. |
| Dda.UploadPart | go/internal/dda/client.go:156-184 | A part upload succeeds exactly when the response is 200 and the quote-trimmed ETag header is non-empty. The part then carries that ETag, which does not start or end with a quote. Another status is reported with its code. |
| Dda.Snapshot | go/internal/dda/client.go:104-114 | The copy succeeds exactly when every listed id is in the store. Entry i is then the lookup of id i. |
| Dda.SnapshotNeverMisses | go/internal/dda/client.go:104-114 | Snapshotting by the store's own id list never fails. |
| Dda.SnapshotOfValid | go/internal/dda/client.go:104-114 | With unique ids the snapshot is the store itself. |
| Dda.UploadTask | go/internal/dda/client.go:121-133 | A task succeeds exactly when its part's `PUT` answers 200 with a non-empty trimmed ETag, and then yields the part carrying that ETag. A failure is wrapped with the part's id. |
| Dda.Tasks | go/internal/dda/client.go:117-136 | One outcome per snapshot entry, in order. A success keeps the entry's id and has a non-empty ETag; a failure is wrapped with that entry's id. |
| Dda.Join | go/internal/dda/client.go:138-142 | The join succeeds exactly when every task did, and then returns the results in order. A failure is the error of some failed task. |
| Dda.WriteBack | go/internal/dda/client.go:144-149 | Writing back parts with positive ids and readable, non-empty ranges never fails. A failure is wrapped as a set-partition failure. |
| Dda.WriteBackInPlace | go/internal/dda/client.go:144-149 | Writing back the retagged copies of a valid store's entries gives exactly those copies, in place and in order. |
| Dda.UploadParts | go/internal/dda/client.go:103-152 | UploadParts changes only the store. If any part upload failed, the asset is returned untouched. |
| Dda.UploadPartsOfValid | go/internal/dda/client.go:103-152 | On a valid store: success exactly when every part's upload succeeds, no change on failure, and the store stays valid. |
| Dda.UploadPartsRetags | go/internal/dda/client.go:144-151 | After success on a valid store, each entry stays in place and differs only by the trimmed, non-empty ETag of its upload. |
| Dda.TasksSucceed | go/internal/dda/client.go:121-142 | The tasks' join succeeds exactly when every part's upload does. |
| Dda.UploadedAreRetagged | go/internal/dda/client.go:121-142 | A successful join yields every part with the trimmed, non-empty ETag of its own response. |
| Dda.ConfirmationPayload | go/internal/dda/client.go:189-210 | The payload carries the upload id and one entry per listed id, in order. Each entry's number is the id, and its ETag is the ETag of that id's lookup. |
| Dda.ConfirmationOfValid | go/internal/dda/client.go:194-210 | On a valid store the payload is exactly the stored (id, ETag) pairs, in store order. |
| Dda.ConfirmUpload | go/internal/dda/client.go:189-240 | Confirmation never changes the asset. If the URL `…/assets/<id>/uploaded` does not parse, nothing is sent and the error is wrapped "failed to create request". Otherwise the payload is posted to that URL, and the call succeeds exactly when the settled reply is a 201 (no body decoded); a send error is wrapped "request failed". |
| Dda.ConfirmUploadSent | go/internal/dda/client.go:219-240 | A confirmation that succeeded had a parsable URL, posted the payload to it, and settled on a 201. |
| Dda.AssociateShopifyProductWithAsset | go/internal/dda/client.go:242-271 | If the URL `…/assets/<id>/attach` does not parse, nothing is sent and the error is wrapped "failed to create request". Otherwise a payload naming exactly the one product is posted to that URL, and the call succeeds exactly when the settled reply is a 201; a send error is wrapped "request failed". |
| Dda.CreateMetaDataAfter429Fails | go/internal/dda/client.go:63-81 | When the metadata post's first reply is a 429 and the re-sends are refused (the fresh-connection case), the asset is unchanged and the error is the wrapped send failure. |
| Dda.ConfirmUploadAfter429Fails | go/internal/dda/client.go:219-237 | When the confirmation post's first reply is a 429 and the re-sends are refused (the fresh-connection case), confirmation fails with the wrapped send failure. |
| Dda.AssociateAfter429Fails | go/internal/dda/client.go:252-268 | When the attach post's first reply is a 429 and the re-sends are refused (the fresh-connection case), association fails with the wrapped send failure. |
| Dda.RetriedConfirmDiverges | go/internal/dda/client.go:219-237 | For a 429 followed by a 201, the as-written POST send fails when the re-send goes out on a fresh connection, while the model's confirmation succeeds. |
| Dda.ConfirmRetriesPast429 | go/internal/dda/client.go:322-329 | Intended behaviour: whatever the number of 429s before a 201, the confirmation succeeds. |
| Dda.AssetURLsParse | go/internal/dda/client.go:219-225 | An asset id with no control character and no '%' gives confirmation and attach URLs that parse. |
| Dda.AssetURLsFail | go/internal/dda/client.go:252-258 | An asset id without '#' or '?' that holds a control character, or a '%' not followed by two hex digits, gives confirmation and attach URLs that do not parse. |
| Dda.AssetURLFails | go/internal/dda/client.go:219-225 | A bad character in the id stays bad in `base/assets/<id><suffix>` for any suffix that starts with '/' and holds no '#' or '?'. |
| GoURL.ParseFails | go/internal/dda/client.go:219-225 | When `http.NewRequest` refuses the confirmation URL (and the attach URL at client.go:252-258): a control byte before the first '#', or a '%' without two hex digits in the path or the fragment. Every refusal traces to a control byte or a bad escape in the URL itself. |
| GoURL.Index | go/internal/dda/client.go:219-225 | The first position of a character, or the length when it is absent: the cut `net/url.Parse` makes at '#' and '?'. |
| GoURL.CleanParses | go/internal/dda/client.go:219-225 | A URL with no control character and no '%' always parses. |
| GoURL.PlainPathFails | go/internal/dda/client.go:252-258 | In a URL without '#' or '?', a control character or a '%' not followed by two hex digits makes the parse fail. |
| Dda.FindProduct | go/internal/dda/client.go:294-301 | Returns the first listed product with the Shopify id, or proves that none has it. |
| Dda.GetDDAProductID | go/internal/dda/client.go:273-307 | The listing expects status 200 and decodes the body. If the settled reply is not a decodable 200, the send error is wrapped. Otherwise the search succeeds exactly when some listed product has the Shopify id, and returns the service id of the first one. A miss reports the id. |
| StrConv.Atoi | go/internal/asset/upload.go:40-43 | Accepts exactly an optional sign and one or more decimal digits whose signed value is in the int64 range, and returns that value. Anything else is rejected with the text; a negative result comes only from a leading minus. |
| StrConv.AtoiItoa | go/internal/asset/upload.go:40 | Every int64 written in decimal parses back to itself. |
| Upload.UploadImage | go/internal/asset/upload.go:13-37 | If the image cannot be built, nothing is called and the error is wrapped. Otherwise the steps run in order up to the first failure, whose error is wrapped with that step's message. Close is always called last. Success means all three steps ran and succeeded, and the result is the image the last step left. |
| Upload.FirstFound | go/internal/asset/upload.go:47-56 | The first attempt, below ten, whose lookup succeeds. There is none exactly when all ten fail. |
| Upload.AssociateImageWithShopifyProduct | go/internal/asset/upload.go:39-68 | An unparsable id calls nothing and reports the text. Otherwise lookups repeat until the first success, at most ten times. If all fail, the last error is reported. Otherwise exactly one association of the found product with the asset follows, and its error is wrapped. |
| DdaUpload.UploadThroughDda | go/internal/asset/upload.go:13-37 | A successful upload through the DDA client settled its metadata post on a decodable 200 and leaves that response's ids. The store is valid, and every partition has a non-empty ETag. Confirmation succeeded, and its payload is exactly the stored (id, ETag) pairs. |
| DdaUpload.SuccessfulRun | go/internal/asset/upload.go:13-37 | A successful run built the image, and each of the three client steps ran on the previous step's asset without error. The result is the asset left after the part uploads. |
| DdaUpload.UploadStoresAnnounced | go/internal/dda/client.go:86-98 | When the announced partitions are storable, a successful upload stores exactly them, in announcement order. |
| ShopifyScript.ParseTags | upload_shopify.py:48-60 | Raises IndexError exactly when some word is empty. Otherwise it returns the reference grouping: every comma-ended word closes a tag (its words joined by spaces, final comma dropped), and the remaining words form the last tag. The copy in py/upload_shopify.py:37-49 is the same code. |
| ShopifyScript.TagsOfGroup | upload_shopify.py:52-57 | A run of words whose only comma-ended word is its last closes one tag: the run joined by spaces without the final comma. Tagging continues with the words after it. |
| ShopifyScript.TagsCount | upload_shopify.py:50-59 | There is one more tag than there are comma-ended words. |
| ShopifyScript.LastTagIsTail | py/upload_shopify.py:48 | The last tag is the words after the last comma-ended word, joined by spaces. |
| ShopifyScript.TrailingCommaGivesEmptyTag | upload_shopify.py:59 | When the last word ends in a comma, the last tag is empty. |
| ShopifyScript.TagsRejoin | py/upload_shopify.py:40-48 | When the last word does not end in a comma, joining the tags with ", " rebuilds the words joined with " ". |
| ShopifyScript.DropCommaCommutesWithJoin | upload_shopify.py:55-56 | Dropping the comma from the last word before joining gives the same tag as dropping it from the joined text. (The statement on line 55 has no effect simply because its value is discarded.) |
| ShopifyScript.Tags | upload_shopify.py:48-60 | The reference grouping that ParseTags is proved against: there is always at least one tag. |
| ShopifyScript.RFind | upload_shopify.py:63 | The last index of a character, or -1 when it is absent. |
| ShopifyScript.Basename | upload_shopify.py:63 | The base name is a suffix of the path with no slash in it, and the character in front of it, if any, is a slash. |
| ShopifyScript.SplitExt | upload_shopify.py:63 | `splitext` loses nothing. The extension is empty, or a dot followed by no further dot or slash. |
| ShopifyScript.ImageTitle | upload_shopify.py:62-63 | The title is a prefix of the base name and holds no slash. The copy in py/upload_shopify.py:52-53 is the same code. |
| ShopifyScript.ImageTitleIgnoresDirectory | py/upload_shopify.py:52-53 | The directory part of a path does not change the title. |
| ShopifyScript.TitleOfDottedName | upload_shopify.py:62-63 | A name `stem.ext`, where the extension has no dot and the stem is not all dots, has title `stem`. |
| ShopifyScript.ImageTitleOfNamedFile | py/upload_shopify.py:52-53 | `dir/stem.ext` has title `stem` under the same conditions. |
| ShopifyScript.TitleKeepsWholeName | upload_shopify.py:63 | When only dots come before the last dot (a dot file such as `.jpg`), the title is the whole base name. |

## Findings

| source | as written | input that shows it | evidently intended | confidence | as-written member | corrected member |
|---|---|---|---|---|---|---|
| go/internal/dda/client.go:322-329 | On a 429, `send` re-sends the same `*http.Request`. For the three POSTs (client.go:66, :222, :255) its body is a `bytes.Reader` that the first `client.Do` drained, while the Content-Length still announces the payload. On a fresh HTTP/1.1 connection the transport refuses that re-send | confirmation replies: 429, then 201 | re-send the payload after a 429, so the confirmation succeeds on the 201 | medium: the re-send can fail, but need not. `http.NewRequest` sets `GetBody` for a `bytes.Reader`, and `net/http` rewinds the body and retries when the refused request went out on a reused keep-alive connection, which an empty-bodied 429 leaves in the pool. Over HTTP/2 the short body reaches the server, which may answer 400 instead of the client failing; not executed | Dda.SendPostAsWritten, Dda.RetriedConfirmDiverges | Dda.Send, Dda.ConfirmRetriesPast429 |

## Left out

- HTTP and JSON are not modelled beyond what decides an outcome: headers, marshalling, and the wire form of the bodies are left out. A `send` sees a sequence of replies, each a transport error or a status with a body that decodes, is malformed, or cannot be read. A part's `PUT` is a `PutOutcome`. Marshalling errors cannot occur for these payloads.
- URL building is modelled where the URL holds data: the confirmation and attach URLs embed the server's asset id and go through `GoURL.ParseFails`. The metadata URL is a constant, and the product-listing URL embeds only a decimal number; both always parse, so their "request creation failed" and "could not build product list request" branches are unreachable and not modelled. A part's `PUT` URL comes verbatim from the service; its parse failure is the `PutBuildFailed` outcome.
- GoURL.ParseFails: states the rule for URLs of the form the client builds (well-formed scheme and host, no '%' before the path). Host and port validation, and the other checks `net/url.Parse` makes on scheme and authority, are left out.
- Concurrency is not modelled. The part uploads run as goroutines, and the join reads their errors from a channel; the model evaluates the tasks in order. `Dda.Join` reports the first failure by index, while the source reports whichever failure arrives first, so the contract only says the error is some failed task's error. The mutexes around the store are not modelled.
- Dda.CreateMetaData: the success condition treats a re-send after a 429 as carrying the whole body again. In the source the re-sent POST has a drained body and can fail (see "## Findings"). On a fresh HTTP/1.1 connection it fails with a send error, and `Dda.CreateMetaDataAfter429Fails` states that outcome. On a reused keep-alive connection `net/http` rewinds the body through `GetBody` and the re-send goes out whole, as the model has it. Over HTTP/2 the server may answer 400 instead. The model does not decide which connection a re-send uses.
- Dda.ConfirmUpload: the same holds for the confirmation post; `Dda.ConfirmUploadAfter429Fails` states the fresh-connection outcome.
- Dda.AssociateShopifyProductWithAsset: the same holds for the attach post; `Dda.AssociateAfter429Fails` states the fresh-connection outcome.
- The metadata request body (`filepath.Base` of the file name, the size and the MIME type) is not modelled; it does not influence any outcome.
- Dda.Send: covers only runs in which some reply is not a rejected 429; the source recurses without bound while the service keeps answering 429. The exponential backoff (a floating-point `math.Pow`) and the sleeps are timing only and are left out.
- File-system calls are inputs rather than operations: `os.Stat` (an optional size), `os.Open` (an optional file content), and `mime.TypeByExtension` (the MIME string). `Close` appears only as the final `CloseCall` of an `UploadImage` run, and its logged error is not modelled.
- Partitions.SetPartition: an end byte below the start byte returns an `InvertedRange` error. In the source the uint64 length wraps and `make` panics. A range too long for `make` to allocate also panics in the source, where the model reads the file and reports `ReadFailed` or stores the bytes.
- Dda.IngestSkipsRejected: excludes inverted ranges, where the source panics. It still covers ranges too long for `make` to allocate, on which the source also panics; there the lemma follows the model's SetPartition (see the Partitions.SetPartition line) rather than the source.
- Dda.UploadParts: partition contents are immutable bytes. In the source each partition holds one `*bytes.Reader`, which the snapshot copy shares and the `PUT` drains. A second upload of the same stored partition would send an empty body; the model sends the same bytes again.
- Dda.UploadPartsOfValid: the same drained-reader effect is not modelled, so the lemma speaks of one run of UploadParts on freshly stored partitions.
- Logging (`log.Printf`) and the product search's list of searched ids, which is only logged, are left out.
- Interfaces are typed loosely. The uploader interface (`uploader.go`) takes `*Asset`, while `UploadImage` passes `*Image`. The associater interface (`associater.go`) declares only the association method, although `AssociateImageWithShopifyProduct` also calls `GetDDAProductID`. The model gives both interfaces the operations the workflow calls, on the one shared asset record.
- `go/cmd/uploader/main.go`, the Node script, and the rest of the Python script (Shopify API calls, argument handling) are not part of this model.
- `asset.go` and `image.go` both declare `mimeTypeJPEG`, so the package does not compile. The two files are modelled as one shared store with two constructors (`Assets.NewAsset`, `Images.NewImage`).
- StrConv.Atoi: follows the 64-bit `strconv.Atoi` syntax but reports every rejection as one `NotAnInteger` error; Go's separate syntax and range errors are not distinguished.
- The `time.Sleep` between product lookups is not modelled.

Metadata creation rejects only descriptors with End < 1 (`go/internal/dda/client.go:88-90`). Every other bad range goes to SetPartition, whose error is ignored; `Dda.IngestSkipsEmptyRange` and `Dda.IngestSkipsRejected` state what happens to such a range.
