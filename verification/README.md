# eLife API SDK core in Dafny

This project models part of the eLife API SDK for PHP: the paged clients
for interviews and events, a set of serializer codecs, and three models.
The codecs are the preprint, thesis, book, patent and software references,
the image block, the blog article, the place and the podcast episode. The
models are `Place`, `PersonAuthor` and `Collection`. Each member's
contract states what the code does for it, and the lemmas prove how the
members fit together: round trips, caching, paging. Where a contract
states less than the code does, "Left out" names it.

What is modelled:

- **Wire values.** A decoded JSON payload is a `Json` tree. Object keys
  are a `Key` enumeration, with `Other(name)` for the rest. PHP's truthiness
  is written out: `""` and `"0"` are falsy strings, `0` is a falsy number,
  and an empty list or object is falsy (module `Json`).
- **Codecs.** Each codec is a pair of functions `Normalize` and
  `Denormalize`. An encoding is described key by key: an `Entry` table
  says what `normalize` writes under each key, or nothing when the
  key's `if` guard fails. Every codec has a `Surviving` function that
  says what an encoding keeps. It proves that decoding an encoding gives
  back exactly that (`Decoded`), and that an `Encodable` value comes back
  whole (`RoundTrip`).
- **Nested normalizers.** A normalizer these codecs delegate to is not
  part of this model: authors, person details, addresses, images, blocks,
  asset files and subjects. Each such value is carried as its own wire
  object (`Embedded`), so it round-trips by construction.
- **Promises.** A deferred value is modelled once settled: `Deferred<T>` is
  `Result<T>`, where a fulfilled promise is `Success` and a rejected one
  is `Failure`.
- **Serializer dispatch.** The serializer picks the first codec whose
  `supports*` predicate accepts the request (module `Serializer`). The
  support predicates are pairwise disjoint, so the choice does not depend
  on the registration order.
- **Clients.** A client's own state is a `View` value. The interviews
  item cache is a separate map threaded through every call, because
  PHP's `clone` shares it between a client and its reversed copy. The
  HTTP client is a pair of function parameters, and each operation also
  returns the requests it sends.
- **Paging.** `slice($offset, $length)` asks for page `$offset / $length + 1`.
  PHP divides in floating point and the `int` parameter truncates the
  result toward zero (module `Paging`).

Three behaviours of the code are easy to misread, and the model follows
the code:

- `Interviews::reverse` keeps the memoised count; it does not drop it
  when the order changes.
- The page number truncates toward zero rather than flooring, which
  matters for negative offsets (`Paging.NegativeOffsetsAskPageZero`).
- A list item that fails to decode fails the whole slice. Its siblings
  are not kept (`Events.DecodeItems`, `Interviews.ListItems`).

The wire formats of the book, patent and software references, the place
and the podcast episode are taken from their normalizer tests, whose
fixtures fix every key these codecs write. The rows below cite those
fixtures.

## Model

| member | source | states |
|---|---|---|
| `Paging.Quotient` | src/Client/Interviews.php:73 | the quotient of a natural number by a positive one is the floor quotient: `q*b <= a < q*b + b` |
| `Paging.TruncDiv` | src/Client/Interviews.php:73 | division truncating toward zero: the magnitude is the floor quotient of the magnitudes; the result is non-negative when the signs agree and non-positive when they differ |
| `Paging.PageNumber` | src/Client/Interviews.php:73 | the requested page fails with division by zero exactly when the length is 0 |
| `Paging.PageOfNonNegativeOffset` | src/Client/Events.php:71 | for a non-negative offset and a positive length, the page is the floor quotient plus one |
| `Paging.AlignedPage` | src/Client/Interviews.php:73 | a page-aligned offset `k*length` asks for page `k+1` |
| `Paging.PageHoldsOffset` | src/Client/Events.php:71-72 | for a non-negative offset, the requested page of that length is at least 1 and covers the offset: `(page-1)*length <= offset < page*length` |
| `Paging.NegativeOffsetsAskPageZero` | src/Client/Interviews.php:73 | any offset strictly between `-2*length` and 0 asks for page 0, where flooring would give -1 or 0 |
| `Interviews.DecodeInterview` | src/Client/Interviews.php:116-117 | an item decodes exactly when it is an object with a string id, and the interview keeps that id, the record and the CV and content it is handed |
| `Interviews.DecodeFull` | src/Client/Interviews.php:50-57 | a failed fetch fails with the fetch's own error; a fetched record decodes with its own interviewee CV |
| `Interviews.Get` | src/Client/Interviews.php:44-58 | a cached id returns the cached outcome, failed or not, and sends nothing; an uncached id sends one request, stores the decoded outcome under the id, and leaves every other entry unchanged |
| `Interviews.GetTwice` | src/Client/Interviews.php:46-48 | a second `get` of the same id returns the first outcome and sends no request |
| `Interviews.ListedAgreesWithGet` | src/Client/Interviews.php:101-114 | a listed interview that was not cached carries what `get` of its id would give: the same content, and the same CV except that an empty CV becomes an empty list; a failed fetch rejects both |
| `Interviews.CachedItems` | src/Client/Interviews.php:98-99 | for a fully cached list, the cached interviews of the listed ids, one per item and in order |
| `Interviews.ListItems` | src/Client/Interviews.php:97-121 | listing never changes or removes a cache entry, and every new entry is a decoded interview. On success every listed id is cached and the result is the cached interviews in list order; an item whose id was neither cached nor seen earlier in the list is the listed record under its id, with its CV and content from its full record |
| `Interviews.ServedFromCache` | src/Client/Interviews.php:97-99 | a list whose ids are all cached is answered from the cache alone, and the cache is unchanged |
| `Interviews.ListingTwice` | src/Client/Interviews.php:97-118 | listing the same items again after a successful listing gives the same interviews and stores nothing new |
| `Interviews.FollowUp` | src/Client/Interviews.php:85-95 | the follow-up batch holds one full-record request per listed item, in order, each for that item's id |
| `Interviews.Slice` | src/Client/Interviews.php:60-124 | length 0 fails with division by zero and sends nothing. Otherwise the list request for the computed page, length and order comes first; a failed list leaves view and cache alone; a fetched page's total becomes the count, and the follow-up batch follows exactly when some item is not cached. A slice succeeds exactly when listing its items does, and then yields each item's cached interview, an uncached one built from the listed record with its CV and content from its full record |
| `Interviews.SliceTwice` | src/Client/Interviews.php:85-118 | after a successful slice, the same slice gives the same interviews with the same cache and sends only the list request |
| `Interviews.Reverse` | src/Client/Interviews.php:126-133 | the copy has the opposite order and keeps the memoised count |
| `Interviews.ReverseTwice` | src/Client/Interviews.php:126-133 | reversing twice restores the original view |
| `Interviews.Count` | src/Client/Interviews.php:135-142 | a known count is returned with no request. An unknown one sends the list request for page 1 of length 1: a failed list fails the count and changes nothing; otherwise the server's total becomes the count, and the count succeeds, with that total, exactly when the listed items decode |
| `Interviews.CountTwice` | src/Client/Interviews.php:135-142 | once a count succeeds, counting again returns it and sends nothing |
| `Events.DecodeEvent` | src/Client/Events.php:82-84 | only an object decodes, and the event keeps the record and the snippet flag it was decoded with |
| `Events.Get` | src/Client/Events.php:33-43 | every `get` sends one request for the id; a failed fetch fails with its error, and a fetched record decodes as a full (non-snippet) event |
| `Events.ForType` | src/Client/Events.php:45-56 | the copy has the new type and the same order, and keeps the count exactly when the type is unchanged |
| `Events.SameTypeUnchanged` | src/Client/Events.php:51-53 | choosing the type a view already has changes nothing |
| `Events.ForTypeIdempotent` | src/Client/Events.php:45-56 | choosing a type twice is the same as choosing it once |
| `Events.DecodeItems` | src/Client/Events.php:81-85 | listed items decode exactly when every one is an object, giving one snippet event per item, in order, with that item's record |
| `Events.ItemsKeepRecords` | src/Client/Events.php:82-84 | the records of the decoded events are the listed items, in order |
| `Events.Slice` | src/Client/Events.php:58-87 | length 0 fails with division by zero and sends nothing; otherwise exactly one list request is sent for the computed page, length, type and order. A failed list fails the slice with the list's own error and leaves the view alone; a fetched page's total becomes the count; the slice succeeds exactly when every item is an object, and its events' records are the items |
| `Events.SliceGivesSnippets` | src/Client/Events.php:83 | every event of a successful slice was decoded as a snippet |
| `Events.Reverse` | src/Client/Events.php:89-96 | the copy has the opposite order and keeps the type and the count |
| `Events.ReverseTwice` | src/Client/Events.php:89-96 | reversing twice restores the original view |
| `Events.ReverseForTypeCommute` | src/Client/Events.php:45-96 | reversing and then choosing a type gives the same view as choosing the type and then reversing |
| `Json.ReadOptionalString` | src/Serializer/Reference/PreprintReferenceNormalizer.php:26 | `?? null`: an absent or null key reads as no value, a string reads as itself, and anything else fails |
| `Json.ReadOptionalInt` | test/Serializer/Reference/BookReferenceNormalizerTest.php:82-123 | `?? null` for an integer: an absent or null key reads as no value, an integer reads as itself, and anything else fails |
| `Json.ReadFlag` | src/Serializer/Reference/PreprintReferenceNormalizer.php:30 | `?? false`: an absent, null or false key reads as false, and only `true` reads as true |
| `Json.StringsRoundTrip` | src/Serializer/BlogArticleNormalizer.php:66-70 | a list of strings decodes from its encoding unchanged and in order |
| `Json.EmbeddedListRoundTrip` | src/Serializer/Reference/PreprintReferenceNormalizer.php:27-29 | a list of nested objects decodes from its encoding unchanged and in order |
| `PreprintReferenceNormalizer.KeysBounded` | src/Serializer/Reference/PreprintReferenceNormalizer.php:49-79 | every encoding holds the `preprint` tag and the required keys, and no key outside the wire format |
| `PreprintReferenceNormalizer.RequiredKeysWritten` | src/Serializer/Reference/PreprintReferenceNormalizer.php:51-60 | the id, date, article title, source and authors are always written, as the reference holds them |
| `PreprintReferenceNormalizer.OptionalStringsWritten` | src/Serializer/Reference/PreprintReferenceNormalizer.php:62-76 | the discriminator, DOI and URI are each written, as themselves, exactly when truthy |
| `PreprintReferenceNormalizer.EtAlWritten` | src/Serializer/Reference/PreprintReferenceNormalizer.php:66-68 | `authorsEtAl` is written, as `true`, exactly when the flag is set |
| `PreprintReferenceNormalizer.Denormalize` | src/Serializer/Reference/PreprintReferenceNormalizer.php:21-36 | a missing id or author list fails the decode; absent optional keys read as null or false, and every decoded field equals what the payload holds under its key |
| `PreprintReferenceNormalizer.Surviving` | src/Serializer/Reference/PreprintReferenceNormalizer.php:62-76 | what an encoding keeps: falsy optional strings become absent, and a reference is unchanged exactly when it has none |
| `PreprintReferenceNormalizer.Decoded` | src/Serializer/Reference/PreprintReferenceNormalizer.php:21-79 | decoding any reference's encoding gives the reference back, less the falsy optional strings |
| `PreprintReferenceNormalizer.RoundTrip` | src/Serializer/Reference/PreprintReferenceNormalizer.php:21-79 | a reference with no falsy optional string comes back unchanged |
| `PreprintReferenceNormalizer.FalsyDoiIsLost` | src/Serializer/Reference/PreprintReferenceNormalizer.php:70-72 | a DOI of `"0"` is not written, and comes back as no DOI |
| `ThesisReferenceNormalizer.KeysBounded` | src/Serializer/Reference/ThesisReferenceNormalizer.php:47-71 | every encoding holds the `thesis` tag and the required keys, and no key outside the wire format |
| `ThesisReferenceNormalizer.RequiredKeysWritten` | src/Serializer/Reference/ThesisReferenceNormalizer.php:49-56 | the id, date, author, title and publisher are always written, the publisher as a place encoding |
| `ThesisReferenceNormalizer.OptionalStringsWritten` | src/Serializer/Reference/ThesisReferenceNormalizer.php:58-68 | the discriminator, DOI and URI are each written, as themselves, exactly when truthy |
| `ThesisReferenceNormalizer.Denormalize` | src/Serializer/Reference/ThesisReferenceNormalizer.php:22-34 | a missing id, date or title fails, and on success each equals what the payload holds; absent optional keys read as null and the others as themselves; the publisher decodes through the place codec |
| `ThesisReferenceNormalizer.Surviving` | src/Serializer/Reference/ThesisReferenceNormalizer.php:58-68 | what an encoding keeps: falsy optional strings become absent, and a reference is unchanged exactly when it has none |
| `ThesisReferenceNormalizer.Decoded` | src/Serializer/Reference/ThesisReferenceNormalizer.php:22-71 | decoding any reference's encoding gives the reference back, less the falsy optional strings |
| `ThesisReferenceNormalizer.RoundTrip` | src/Serializer/Reference/ThesisReferenceNormalizer.php:22-71 | a reference with no falsy optional string comes back unchanged, publisher included |
| `BookReferenceNormalizer.KeysBounded` | test/Serializer/Reference/BookReferenceNormalizerTest.php:79-147 | every encoding holds the `book` tag and the minimum fixture's keys, and no key beyond the complete fixture's |
| `BookReferenceNormalizer.RequiredKeysWritten` | test/Serializer/Reference/BookReferenceNormalizerTest.php:124-146 | the id, date, book title, publisher and authors are always written, as the reference holds them |
| `BookReferenceNormalizer.ContributorKeysWritten` | test/Serializer/Reference/BookReferenceNormalizerTest.php:82-123 | the editors are written exactly when there are some, and each et-al flag exactly when set |
| `BookReferenceNormalizer.DiscriminatorAndVolumeWritten` | test/Serializer/Reference/BookReferenceNormalizerTest.php:82-123 | the discriminator and the volume are each written, as themselves, exactly when truthy |
| `BookReferenceNormalizer.EditionAndDoiWritten` | test/Serializer/Reference/BookReferenceNormalizerTest.php:82-123 | the edition and the DOI are each written, as themselves, exactly when truthy |
| `BookReferenceNormalizer.PmidAndIsbnWritten` | test/Serializer/Reference/BookReferenceNormalizerTest.php:82-123 | the PubMed id is written unless absent or 0, and the ISBN exactly when truthy |
| `BookReferenceNormalizer.Denormalize` | test/Serializer/Reference/BookReferenceNormalizerTest.php:186-254 | a missing id, date, title or author list fails; on success the id, date (verbatim, year-only included) and title equal the payload's strings; absent optional keys read as null, false or no editors; the publisher decodes through the place codec |
| `BookReferenceNormalizer.Surviving` | test/Serializer/Reference/BookReferenceNormalizerTest.php:82-147 | what an encoding keeps: falsy optional values become absent, and a reference is unchanged exactly when it has none |
| `BookReferenceNormalizer.ContributorKeysRead` | test/Serializer/Reference/BookReferenceNormalizerTest.php:189-230 | the editors and et-al flags read back from an encoding as the reference holds them |
| `BookReferenceNormalizer.PublicationKeysRead` | test/Serializer/Reference/BookReferenceNormalizerTest.php:189-230 | the volume, edition, DOI, PubMed id and ISBN read back as what their guards let through |
| `BookReferenceNormalizer.Decoded` | test/Serializer/Reference/BookReferenceNormalizerTest.php:186-254 | decoding any reference's encoding gives the reference back, less its falsy optional values |
| `BookReferenceNormalizer.RoundTrip` | test/Serializer/Reference/BookReferenceNormalizerTest.php:189-230 | a reference with no falsy optional value comes back unchanged, editors and publisher included |
| `BookReferenceNormalizer.NoOptionalKey` | test/Serializer/Reference/BookReferenceNormalizerTest.php:124-146 | a reference with nothing optional has none of the optional keys in its encoding |
| `BookReferenceNormalizer.OnlyRequiredKeys` | test/Serializer/Reference/BookReferenceNormalizerTest.php:124-146 | with nothing optional, the encoding holds exactly the minimum fixture's keys |
| `BookReferenceNormalizer.AllKeys` | test/Serializer/Reference/BookReferenceNormalizerTest.php:82-123 | with every optional value present and truthy, the encoding holds exactly the complete fixture's keys |
| `PatentReferenceNormalizer.KeysBounded` | test/Serializer/Reference/PatentReferenceNormalizerTest.php:76-140 | every encoding holds the `patent` tag and the minimum fixture's keys, and no key beyond the complete fixture's |
| `PatentReferenceNormalizer.RequiredKeysWritten` | test/Serializer/Reference/PatentReferenceNormalizerTest.php:117-139 | the id, date, inventors, title, patent type and country are always written, as the reference holds them |
| `PatentReferenceNormalizer.ContributorKeysWritten` | test/Serializer/Reference/PatentReferenceNormalizerTest.php:79-116 | the assignees are written exactly when there are some, and each et-al flag exactly when set |
| `PatentReferenceNormalizer.OptionalStringsWritten` | test/Serializer/Reference/PatentReferenceNormalizerTest.php:79-116 | the discriminator, number and URI are each written, as themselves, exactly when truthy |
| `PatentReferenceNormalizer.Denormalize` | test/Serializer/Reference/PatentReferenceNormalizerTest.php:179-243 | a missing id, date, title, inventor list or patent type fails; on success the id, date, title, patent type and country equal the payload's strings; absent optional keys read as null, false or no assignees |
| `PatentReferenceNormalizer.Surviving` | test/Serializer/Reference/PatentReferenceNormalizerTest.php:79-140 | what an encoding keeps: falsy optional strings become absent, and a reference is unchanged exactly when it has none |
| `PatentReferenceNormalizer.ContributorKeysRead` | test/Serializer/Reference/PatentReferenceNormalizerTest.php:182-219 | the assignees and et-al flags read back as written, or as their defaults |
| `PatentReferenceNormalizer.OptionalStringsRead` | test/Serializer/Reference/PatentReferenceNormalizerTest.php:182-219 | the discriminator, number and URI read back as what their guards let through |
| `PatentReferenceNormalizer.Decoded` | test/Serializer/Reference/PatentReferenceNormalizerTest.php:179-243 | decoding any reference's encoding gives the reference back, less its falsy optional strings |
| `PatentReferenceNormalizer.RoundTrip` | test/Serializer/Reference/PatentReferenceNormalizerTest.php:182-219 | a reference with no falsy optional string comes back unchanged, assignees included |
| `PatentReferenceNormalizer.NoOptionalKey` | test/Serializer/Reference/PatentReferenceNormalizerTest.php:117-139 | a reference with nothing optional has none of the optional keys in its encoding |
| `PatentReferenceNormalizer.OnlyRequiredKeys` | test/Serializer/Reference/PatentReferenceNormalizerTest.php:117-139 | with nothing optional, the encoding holds exactly the minimum fixture's keys |
| `PatentReferenceNormalizer.AllKeys` | test/Serializer/Reference/PatentReferenceNormalizerTest.php:79-116 | with every optional value present and truthy, the encoding holds exactly the complete fixture's keys |
| `SoftwareReferenceNormalizer.KeysBounded` | test/Serializer/Reference/SoftwareReferenceNormalizerTest.php:79-132 | every encoding holds the `software` tag and the minimum fixture's keys, and no key beyond the complete fixture's |
| `SoftwareReferenceNormalizer.RequiredKeysWritten` | test/Serializer/Reference/SoftwareReferenceNormalizerTest.php:109-131 | the id, date, authors, title and publisher are always written, the publisher as a place encoding |
| `SoftwareReferenceNormalizer.OptionalKeysWritten` | test/Serializer/Reference/SoftwareReferenceNormalizerTest.php:82-108 | the discriminator, version and URI are each written, as themselves, exactly when truthy, and `authorsEtAl` exactly when set |
| `SoftwareReferenceNormalizer.Denormalize` | test/Serializer/Reference/SoftwareReferenceNormalizerTest.php:171-224 | a missing id, date, title or author list fails; on success the id, date and title equal the payload's strings; absent optional keys read as null or false; the publisher decodes through the place codec |
| `SoftwareReferenceNormalizer.Surviving` | test/Serializer/Reference/SoftwareReferenceNormalizerTest.php:79-132 | what an encoding keeps: falsy optional strings become absent, and a reference is unchanged exactly when it has none |
| `SoftwareReferenceNormalizer.Decoded` | test/Serializer/Reference/SoftwareReferenceNormalizerTest.php:171-224 | decoding any reference's encoding gives the reference back, less its falsy optional strings |
| `SoftwareReferenceNormalizer.RoundTrip` | test/Serializer/Reference/SoftwareReferenceNormalizerTest.php:174-200 | a reference with no falsy optional string comes back unchanged, publisher included |
| `SoftwareReferenceNormalizer.NoOptionalKey` | test/Serializer/Reference/SoftwareReferenceNormalizerTest.php:109-131 | a reference with nothing optional has none of the optional keys in its encoding |
| `SoftwareReferenceNormalizer.OnlyRequiredKeys` | test/Serializer/Reference/SoftwareReferenceNormalizerTest.php:109-131 | with nothing optional, the encoding holds exactly the minimum fixture's keys |
| `SoftwareReferenceNormalizer.AllKeys` | test/Serializer/Reference/SoftwareReferenceNormalizerTest.php:82-108 | with every optional value present and truthy, the encoding holds exactly the complete fixture's keys |
| `ImageNormalizer.FileStringsWritten` | src/Serializer/Block/ImageNormalizer.php:72-92 | an image file's encoding always holds its image, and holds the DOI, id, label and title each exactly when truthy |
| `ImageNormalizer.FileListsWritten` | src/Serializer/Block/ImageNormalizer.php:94-108 | the caption, attribution and source data are each written, in order, exactly when non-empty |
| `ImageNormalizer.DecodeFile` | src/Serializer/Block/ImageNormalizer.php:61-70 | only an object decodes; absent strings read as null and absent lists as empty |
| `ImageNormalizer.FileReadsOnlyFileKeys` | src/Serializer/Block/ImageNormalizer.php:61-70 | decoding an image file looks only at its eight keys, so the block's `type` and `supplements` do not disturb the primary file |
| `ImageNormalizer.SurvivingFile` | src/Serializer/Block/ImageNormalizer.php:78-92 | what a file's encoding keeps: falsy strings become absent, and the lists and image are kept as they are |
| `ImageNormalizer.FileDecoded` | src/Serializer/Block/ImageNormalizer.php:61-111 | decoding an image file's encoding gives the file back, less its falsy strings |
| `ImageNormalizer.DecodeFiles` | src/Serializer/Block/ImageNormalizer.php:25-27 | a successful decode has one file per element, each the element's own decoding, in order |
| `ImageNormalizer.FilesDecoded` | src/Serializer/Block/ImageNormalizer.php:25-50 | a list of supplements decodes from its encoding, in order, as what each file's guards keep |
| `ImageNormalizer.BlockKeysWritten` | src/Serializer/Block/ImageNormalizer.php:45-51 | the block's encoding is tagged `image`, and holds the supplements, in order, exactly when there are some |
| `ImageNormalizer.PrimaryKeyAt` | src/Serializer/Block/ImageNormalizer.php:45 | `array_merge`: under every image-file key the block's encoding holds what the primary file's encoding holds |
| `ImageNormalizer.Denormalize` | src/Serializer/Block/ImageNormalizer.php:22-30 | the block's own payload is the primary file, so a primary file that fails fails the block; absent supplements read as none; a supplements list decodes one file per entry, in order, and an entry that fails, or a value that is not a list, fails the block |
| `ImageNormalizer.Surviving` | src/Serializer/Block/ImageNormalizer.php:72-108 | what a block's encoding keeps: each of its files, primary and supplements, as that file's guards keep it |
| `ImageNormalizer.PrimaryDecoded` | src/Serializer/Block/ImageNormalizer.php:24-45 | the primary file decodes from the block's merged encoding as what its guards keep |
| `ImageNormalizer.Decoded` | src/Serializer/Block/ImageNormalizer.php:22-54 | decoding any image block's encoding gives the block back, less what each file's guards drop |
| `ImageNormalizer.RoundTrip` | src/Serializer/Block/ImageNormalizer.php:22-54 | an image block whose files have no falsy strings comes back unchanged |
| `BlogArticleNormalizer.Normalize` | src/Serializer/BlogArticleNormalizer.php:72-78 | encoding fails exactly when the content is wanted (not a snippet) and its promise is rejected, and then with that promise's error |
| `BlogArticleNormalizer.RequiredKeysWritten` | src/Serializer/BlogArticleNormalizer.php:56-60 | the id, title and published date are always written, as themselves |
| `BlogArticleNormalizer.OptionalKeysWritten` | src/Serializer/BlogArticleNormalizer.php:62-76 | the impact statement is written exactly when truthy; the subject ids, in order, exactly when there are some; the content blocks, in order, exactly outside a snippet |
| `BlogArticleNormalizer.KeysBounded` | src/Serializer/BlogArticleNormalizer.php:54-79 | every encoding holds the id, title and published date, and no key outside the six it can write |
| `BlogArticleNormalizer.DecodeContent` | src/Serializer/BlogArticleNormalizer.php:27-32 | the content promise is fulfilled exactly when the payload holds a list of objects, and then re-encodes to that list |
| `BlogArticleNormalizer.DecodeSubjects` | src/Serializer/BlogArticleNormalizer.php:34 | `!empty(...)`: an absent, null or empty list gives no subjects; otherwise a non-empty list of ids that re-encodes to the payload's list |
| `BlogArticleNormalizer.Denormalize` | src/Serializer/BlogArticleNormalizer.php:25-44 | the decode succeeds exactly when the subjects, id, title, published date and impact statement read, so the lazily decoded content never fails it; the fields equal what the payload holds, null subjects and impact statement reading as none |
| `BlogArticleNormalizer.Surviving` | src/Serializer/BlogArticleNormalizer.php:62-76 | what an encoding keeps: a truthy impact statement, non-empty subjects, and, outside a snippet, the content |
| `BlogArticleNormalizer.ContentRead` | src/Serializer/BlogArticleNormalizer.php:72-76 | the content read back from an encoding is the article's own outside a snippet, and a rejected promise in one |
| `BlogArticleNormalizer.SubjectsRead` | src/Serializer/BlogArticleNormalizer.php:66-70 | the subject ids read back from an encoding when there are some, and none otherwise |
| `BlogArticleNormalizer.ScalarsRead` | src/Serializer/BlogArticleNormalizer.php:36-40 | the id, title, published date and impact statement read back from any encoding as what their guards keep |
| `BlogArticleNormalizer.Decoded` | src/Serializer/BlogArticleNormalizer.php:25-79 | decoding a successful encoding gives the article back, less what the guards and the snippet context drop |
| `BlogArticleNormalizer.RoundTrip` | src/Serializer/BlogArticleNormalizer.php:25-79 | outside a snippet, an article with a truthy or absent impact statement, non-empty or absent subjects and fulfilled content comes back unchanged |
| `BlogArticleNormalizer.SnippetLosesContent` | src/Serializer/BlogArticleNormalizer.php:72-76 | a snippet always encodes, and its decoding has a rejected content promise, whatever the article's content was |
| `PodcastEpisodeNormalizer.DecodeSource` | test/Serializer/PodcastEpisodeNormalizerTest.php:196-201 | a source decodes exactly when it has a string media type and a string URI |
| `PodcastEpisodeNormalizer.SourceRoundTrip` | test/Serializer/PodcastEpisodeNormalizerTest.php:196-201 | a source decodes from its encoding unchanged |
| `PodcastEpisodeNormalizer.DecodeSources` | test/Serializer/PodcastEpisodeNormalizerTest.php:196-201 | a successful decode has one source per element, each the element's own decoding, in order |
| `PodcastEpisodeNormalizer.SourcesRoundTrip` | test/Serializer/PodcastEpisodeNormalizerTest.php:196-201 | a list of sources decodes from its encoding unchanged and in order |
| `PodcastEpisodeNormalizer.ChapterWritten` | test/Serializer/PodcastEpisodeNormalizerTest.php:202-269 | a chapter always writes its number, title and time; its content exactly when non-empty; its impact statement exactly when truthy |
| `PodcastEpisodeNormalizer.MinimumChapterKeys` | test/Serializer/PodcastEpisodeNormalizerTest.php:344-350 | a chapter with no content and no impact statement encodes as its number, title and time only |
| `PodcastEpisodeNormalizer.DecodeChapter` | test/Serializer/PodcastEpisodeNormalizerTest.php:296-303 | a missing number, title or time fails; absent content reads as empty and an absent impact statement as null |
| `PodcastEpisodeNormalizer.SurvivingChapter` | test/Serializer/PodcastEpisodeNormalizerTest.php:202-269 | what a chapter's encoding keeps: a falsy impact statement becomes absent, and a chapter is unchanged exactly when its impact statement is kept |
| `PodcastEpisodeNormalizer.ChapterDecoded` | test/Serializer/PodcastEpisodeNormalizerTest.php:202-269 | a chapter decodes from its encoding as what its guards keep |
| `PodcastEpisodeNormalizer.DecodeChapters` | test/Serializer/PodcastEpisodeNormalizerTest.php:344-350 | a successful decode has one chapter per element, each the element's own decoding, in order |
| `PodcastEpisodeNormalizer.ChaptersDecoded` | test/Serializer/PodcastEpisodeNormalizerTest.php:202-269 | a list of chapters decodes from its encoding, in order, as what each chapter's guards keep |
| `PodcastEpisodeNormalizer.ImageObject` | test/Serializer/PodcastEpisodeNormalizerTest.php:168-195 | the image object always holds the thumbnail, and holds the banner exactly outside a snippet when the banner is fulfilled |
| `PodcastEpisodeNormalizer.Normalize` | test/Serializer/PodcastEpisodeNormalizerTest.php:76-82 | encoding fails exactly outside a snippet when the banner or the chapters are rejected; a rejected banner's error is the one reported |
| `PodcastEpisodeNormalizer.ScalarKeysWritten` | test/Serializer/PodcastEpisodeNormalizerTest.php:164-167 | the number, title and published date are always written; the impact statement exactly when truthy; the updated date exactly when present |
| `PodcastEpisodeNormalizer.ImageAndSourcesWritten` | test/Serializer/PodcastEpisodeNormalizerTest.php:168-201 | the image object and the sources are always written, the sources in order |
| `PodcastEpisodeNormalizer.ListKeysWritten` | test/Serializer/PodcastEpisodeNormalizerTest.php:353-395 | the subjects are written exactly when there are some; the chapters exactly outside a snippet; the type tag exactly when the context asks for it |
| `PodcastEpisodeNormalizer.KeysBounded` | test/Serializer/PodcastEpisodeNormalizerTest.php:134-432 | every encoding holds the minimum snippet's keys, and no key beyond the ten the fixtures show |
| `PodcastEpisodeNormalizer.DecodeBanner` | test/Serializer/PodcastEpisodeNormalizerTest.php:392-393 | the banner promise fails with a failed fetch's error, and is fulfilled exactly when the full episode has a banner object |
| `PodcastEpisodeNormalizer.DecodeEpisodeChapters` | test/Serializer/PodcastEpisodeNormalizerTest.php:429-430 | the chapters promise fails with a failed fetch's error, and fails when the full episode has no chapter list |
| `PodcastEpisodeNormalizer.Denormalize` | test/Serializer/PodcastEpisodeNormalizerTest.php:110-132 | a snippet takes its banner and chapters from the fetched full episode, and a full payload from itself; a missing number, title or date fails, and on success they equal the payload; the impact statement and updated date are the payload's optional reads, null reading as none |
| `PodcastEpisodeNormalizer.Surviving` | test/Serializer/PodcastEpisodeNormalizerTest.php:142-279 | what an encoding keeps: falsy impact statements, the episode's and each chapter's, become absent, and the banner, sources and subjects are kept |
| `PodcastEpisodeNormalizer.Decoded` | test/Serializer/PodcastEpisodeNormalizerTest.php:110-132 | in every context, decoding an episode's encoding gives it back less its falsy impact statements, a snippet's banner and chapters coming from the full episode |
| `PodcastEpisodeNormalizer.RoundTrip` | test/Serializer/PodcastEpisodeNormalizerTest.php:134-432 | an episode whose impact statements are all kept comes back unchanged in every context |
| `PodcastEpisodeNormalizer.NoOptionalKey` | test/Serializer/PodcastEpisodeNormalizerTest.php:280-352 | with no impact statement, updated date or subjects, and no type asked for, none of those keys is written |
| `PodcastEpisodeNormalizer.MinimumKeys` | test/Serializer/PodcastEpisodeNormalizerTest.php:280-432 | with nothing optional, a snippet holds exactly the number, title, published date, image and sources, and a full encoding adds the chapters |
| `PodcastEpisodeNormalizer.ImageKeys` | test/Serializer/PodcastEpisodeNormalizerTest.php:168-195 | with a fulfilled banner, the image object holds the thumbnail alone in a snippet, and the banner as well otherwise |
| `Serializer.DenormalizationDisjoint` | src/Serializer/Reference/PreprintReferenceNormalizer.php:38-44 | no payload and class are accepted by two different codecs |
| `Serializer.NormalizationDisjoint` | src/Serializer/Reference/PreprintReferenceNormalizer.php:81-84 | no value is accepted by two different codecs |
| `Serializer.FirstDecoder` | src/Serializer/Block/ImageNormalizer.php:32-38 | the chosen codec is registered and accepts the payload and class; no codec is chosen only when none accepts |
| `Serializer.FirstEncoder` | src/Serializer/Block/ImageNormalizer.php:56-59 | the chosen codec is registered and accepts the value; no codec is chosen only when none accepts |
| `Serializer.DecoderChosen` | src/Serializer/Reference/ThesisReferenceNormalizer.php:36-42 | in any order of registration, a registered codec is chosen for a payload and class exactly when it accepts them |
| `Serializer.EncoderChosen` | src/Serializer/Reference/ThesisReferenceNormalizer.php:73-76 | in any order of registration, a registered codec is chosen for a value exactly when it accepts it |
| `Serializer.Normalize` | src/Serializer/BlogArticleNormalizer.php:81-84 | a value no codec accepts is refused |
| `Serializer.Denormalize` | src/Serializer/BlogArticleNormalizer.php:46-49 | a class no codec names is refused |
| `Serializer.AlwaysEncoded` | src/Serializer/Block/ImageNormalizer.php:56-59 | every reference, image block and place encodes, whatever the registration order |
| `Serializer.UnknownReferenceTagRefused` | test/Serializer/Reference/BookReferenceNormalizerTest.php:167-174 | a `Reference` payload whose tag names no reference variant is refused |
| `Serializer.ReferenceTagged` | src/Serializer/Reference/PreprintReferenceNormalizer.php:51-52 | the encoding of each reference variant carries that variant's tag under `type` |
| `Serializer.TagSelectsVariant` | src/Serializer/Reference/ThesisReferenceNormalizer.php:36-50 | a reference is encoded by its own variant's codec, and its encoding read as a `Reference` goes back to that codec |
| `Serializer.SurvivingReference` | src/Serializer/Reference/PreprintReferenceNormalizer.php:62-76 | what an encoding keeps of a reference stays the same variant |
| `Serializer.ReferenceRoundTrip` | src/Serializer/Reference/PreprintReferenceNormalizer.php:21-79 | any reference, encoded and decoded as a `Reference`, comes back as the same variant less what its guards drop, whatever the registration order |
| `Serializer.ImageBlockRoundTrip` | src/Serializer/Block/ImageNormalizer.php:22-54 | an image block encoded and decoded as a `Block` is picked up by its tag and comes back less what its guards drop, whatever the registration order |
| `PlaceNormalizer.Written` | test/Serializer/PlaceNormalizerTest.php:106-134 | a place encodes as its name lines, plus its address exactly when it has one |
| `PlaceNormalizer.Denormalize` | test/Serializer/PlaceNormalizerTest.php:99-104 | an absent address reads as none, and the decoded name re-encodes to the payload's name list |
| `PlaceNormalizer.RoundTrip` | test/Serializer/PlaceNormalizerTest.php:95-134 | every place decodes from its encoding unchanged |
| `PlaceNormalizer.EncodeOfDecode` | test/Serializer/PlaceNormalizerTest.php:95-134 | a payload holding only a name list and an optional address object re-encodes to itself after decoding |
| `PlaceNormalizer.CompleteFixture` | test/Serializer/PlaceNormalizerTest.php:111-126 | the complete fixture: a one-line name with an address encodes as, and decodes from, the name list and the address object |
| `PlaceNormalizer.MinimumFixture` | test/Serializer/PlaceNormalizerTest.php:127-132 | the minimum fixture: a one-line name without an address encodes as, and decodes from, the name list alone |
| `Places.NewPlace` | src/Model/Place.php:10-16 | a new place returns the name lines and the address it was given |
| `Places.JoinSnoc` | src/Model/Place.php:36 | `implode`: joining one more part adds the separator and that part, and a single part joins to itself |
| `Places.ToString` | src/Model/Place.php:34-37 | the text is the name lines joined by ", ", followed by ", " and the address text when there is an address |
| `Places.SingleNameToString` | src/Model/Place.php:34-37 | a one-line name without an address prints as that line |
| `PersonAuthors.NewPersonAuthor` | src/Model/PersonAuthor.php:13-30 | an author is deceased exactly as given, and prints, indexes and identifies as its person details |
| `PersonAuthors.DeceasedDefaultsToFalse` | src/Model/PersonAuthor.php:15 | omitting the flag builds an author who is not deceased |
| `PersonAuthors.DelegationIgnoresAuthorFields` | src/Model/PersonAuthor.php:32-53 | two authors with the same person details print, index and identify alike, whatever else differs |
| `Collections.KeepTruthy` | src/Model/Collection.php:87 | `array_filter`: every kept part is a truthy part of the input, and every truthy part is kept |
| `Collections.KeepTruthyConcat` | src/Model/Collection.php:87 | `array_filter` keeps input order and repeats: filtering a concatenation is the concatenation of the filtered parts |
| `Collections.KeepTruthyAppend` | src/Model/Collection.php:87 | one more part is kept, at the end, exactly when it is a truthy string |
| `Collections.GetFullTitle` | src/Model/Collection.php:85-88 | the full title fails exactly when the subtitle promise is rejected; otherwise it is "title: subtitle", or just the truthy one of the two, or "" |
| `Collections.ResolvedFieldsReturned` | src/Model/Collection.php:80-114 | a fulfilled subtitle and banner are returned exactly as given |
| `Collections.FullTitleStartsWithTitle` | src/Model/Collection.php:85-88 | a truthy title always starts the full title |

## Left out

- `slice` with a null length delegates to `all()` in the `Client` and
  `SlicedIterator` traits, which are not part of this model. So are
  `Events::count` and `Events::all`, which come from the `Client` trait.
- Promise laziness: every promise is modelled once settled. The interviews
  follow-up batch is a `CallbackPromise` that runs only when a CV or
  content is forced. The model counts it as sent whenever some listed
  item is not cached (`Interviews.Slice`).
- `Interviews.Slice`: a listed item without a string id fails the slice.
  PHP would index the cache with whatever value the item holds.
- PHP's scalar coercion is not modelled: a wrongly typed value fails the
  decode instead of being converted.
- `ImageNormalizer.Denormalize`: a `supplements` value that is neither
  null nor a list fails the decode. PHP's `foreach` only warns over a
  scalar, giving no supplements, and decodes each value of a JSON object.
  Payloads of those shapes are outside the model.
- Payloads whose object keys include `Other(name)`, where `name` spells
  one of the named keys (`Other("id")` beside `Id`), have no PHP
  counterpart and are outside the model. The `Key` type does not rule
  them out, and no contract relies on their absence.
- Dates are opaque strings; `Date::fromString`, `DateTimeImmutable` and
  the date formats are not modelled.
- Floating point: the page division is exact in the model. PHP's `/`
  yields a float that loses precision beyond 2^53.
- Division by zero is a `DivisionByZero` failure, as PHP 8 throws one.
- Key order within an encoded object is not modelled: an object is a map.
  Keys a codec never reads are carried only inside nested objects.
- The nested normalizers are not part of this model. That covers authors,
  person details, addresses, images, blocks, asset files, subjects, and
  the articles and collections inside podcast chapters. Their values are
  carried as wire objects.
- The interview and event normalizers are not part of this model either.
  `Interviews.DecodeInterview` accepts any object with a string id, and
  `Events.DecodeEvent` accepts any object, keeping the record as given.
- `SubjectsAware::getSubjects` fetches each subject by id. The blog
  article keeps the ids; the fetch is not modelled.
- The serializer's registration order is set up outside these files. The
  model proves that any order holding every codec behaves the same.
- The podcast episode normalizer's own source is not part of this model;
  its behaviour is taken from its test. Its impact-statement guard is
  assumed to be truthiness, as in the other codecs.
- `PodcastEpisodeNormalizer.Surviving` requires fulfilled chapters. A
  full encoding with rejected chapters fails. A snippet does encode, but
  decoding it takes the chapters from the full encoding fetched by number,
  and that encoding fails. So no context gives such an episode a round
  trip.
- Concrete fixtures are stated as general lemmas, except for the place.
  For example, `OnlyRequiredKeys` is the minimum fixture's key set for
  every reference with nothing optional. Literal fixtures with nested
  objects would be heavy to state in full.
- The `PersonAuthor` normalizer test, `ReportReference`, `Event`, the
  asset file test and the validating storage adapter are context only.
  They are not modelled.
