# Media catalog model

A Dafny model of the client-side media catalog of the family-archive
front end (`frontend/lib/services/media-service.ts`). The catalog reads
pictures, videos and documents from a content-indexing API, turns the raw
image and document records into one `MediaItem` shape, and serves them to the
UI under a stale-while-revalidate policy. It answers from an in-memory cache
when it can, refreshes in the background, and calls the caller back only
when the refreshed list holds news.

Modules, leaves first:

- `Wrappers` (`wrappers.dfy`): `Option`, `Result` and the catalog's `Error`.
- `Text` (`text.dfy`): ASCII case folding, prefixes and suffixes, the last
  dot-separated segment of a name, and regular-expression line terminators.
- `MediaTypes` (`media_types.dfy`): `MediaItem`, `MediaPage`, `RagImage`,
  `RagDocument`, `ImagePage`, `Category`, and JavaScript truthiness of an
  optional string.
- `ContentType` (`content_type.dfy`): the extension-to-MIME table and
  `inferContentType`, in its corrected form and as written (see Findings).
- `S3Uri` (`s3_uri.dfy`): `s3UriToKey`.
- `Normalize` (`normalize.dfy`): `imageToMediaItem`, `documentToMediaItem`,
  `createMediaItemFromSearch`.
- `DateOrder` (`date_order.dfy`): `sortByDate` as a stable newest-first sort.
- `Diff` (`diff.dfy`): `hasNewItems`.
- `Classify` (`classify.dfy`): the listing filter of `fetchDocuments`,
  written as a matcher for the dated-letter pattern, plus
  `buildVideosPage` and `buildDocumentsPage`.
- `MediaCache` (`media_cache.dfy`): the two cache slots and
  `getMediaItems` as a transition function. It also holds the two
  background-refresh completions, `invalidateMediaCache` and
  `resetPagination`.
- `Resolve` (`resolve.dfy`): the decisions of `resolveSignedUrl`.

How the model treats the source:

- Network answers are parameters. A step of `getMediaItems` reports the
  request it waits for (`ListImages(50, cursor)` or `ListDocuments`) and
  takes the answer to it as a `Result`. A failed request rejects the call and
  leaves the cache alone.
- A call served from the cache reports the refresh it spawns.
  `CompletePictureRefresh` and `CompleteViewRefresh` complete that refresh
  later, against whatever the cache holds by then. Running them after an
  invalidation reproduces the known race: a late refresh repopulates a slot
  that was just cleared.
- Dates are integer timestamps. `createMediaItemFromSearch` takes the
  current time as a parameter.
- `onFreshData` is a flag saying whether a callback was supplied. Firing the
  callback is the `pushed` page of a completed refresh.

Details the code decides that its doc comments leave open (the comment of
`getMediaItems` at media-service.ts:256-260 says only that cached data is
returned at once and fresh data fetched in the background):

- Unless more pictures are being loaded, a warm slot with no callback does
  not serve the cache. It falls through to the first-page fetch and replaces
  the slot, exactly as a cold slot does. Loading more pictures on a warm slot
  fetches the next page and appends it, with or without a callback.
- `hasMore` is `!!nextToken`, so an empty-string cursor counts as exhausted,
  not only a null one.
- `sortByDate` sorts the cached array in place. So the pictures slot is
  always stored sorted, and `Valid` records this.
- Loading more on a slot whose cursor is null asks for the first page again
  and appends it (`LoadMoreWhenExhaustedRestarts`).
- A view refresh compares only the requested view. A change that shows only
  in the other view neither replaces the shared slot nor fires the callback.
- `resolveSignedUrl` treats a cached empty document list as cached, because
  an empty array is truthy.

## Model

| member | source | states |
|---|---|---|
| `Text.LastSegment` | frontend/lib/services/media-service.ts:121 | the extension is the longest dot-free suffix, which is the whole name when it has no dot and otherwise follows the last dot |
| `Text.LastSegmentLower` | frontend/lib/services/media-service.ts:121 | lower-casing a name and then taking its extension gives the lower-cased extension |
| `Text.LowerAscii` | frontend/lib/services/media-service.ts:121 | the folded name has the same length and each character is its ASCII lower case, others unchanged |
| `ContentType.MimeFor` | frontend/lib/services/media-service.ts:122-139 | no extension maps to the generic binary type, so that type marks the fallback alone |
| `ContentType.InferContentType` | frontend/lib/services/media-service.ts:120-141 | the result is the generic binary type exactly when the folded extension has no table entry (the empty extension included), and otherwise is that entry |
| `ContentType.InferContentTypeCaseInsensitive` | frontend/lib/services/media-service.ts:121 | names that differ only in the case of their letters get the same content type |
| `ContentType.InferContentTypeBareName` | frontend/lib/services/media-service.ts:121-140 | `png` with no dot is its own extension and maps to `image/png`; the empty name maps to the binary type |
| `ContentType.InferContentTypeLastDotOnly` | frontend/lib/services/media-service.ts:121 | only the text after the last dot counts (`archive.tar.gz`), and a trailing dot leaves an empty, unknown extension |
| `ContentType.InferContentTypeFoldsCapitals` | frontend/lib/services/media-service.ts:121 | `photo.PNG` is `image/png` and `clip.final.MOV` is `video/quicktime` |
| `ContentType.InferContentTypeAsWritten` | frontend/lib/services/media-service.ts:122-140 | the object-literal lookup as written yields an inherited member, not a string, exactly for the folded extensions `constructor` and `__proto__` |
| `ContentType.AsWrittenAgreesOffInheritedNames` | frontend/lib/services/media-service.ts:122-140 | away from those two names, the lookup as written and the corrected one agree |
| `ContentType.InheritedNamesOutsideTable` | frontend/lib/services/media-service.ts:122-139 | neither `constructor` nor `__proto__` is a key of the table, so the table never shadows them |
| `ContentType.AsWrittenInheritedCounterexample` | frontend/lib/services/media-service.ts:140 | `notes.constructor` gets no MIME string as written, though the corrected lookup gives it the binary type |
| `S3Uri.S3UriToKey` | frontend/lib/services/media-service.ts:88-91 | a changed result is a non-empty key with no line terminator, and the input is `s3://` followed by a non-empty slash-free bucket, `/` and that key |
| `S3Uri.S3UriToKeyRoundTrip` | frontend/lib/services/media-service.ts:89-90 | the key of a URI built from a valid bucket and key is that key |
| `S3Uri.S3UriToKeyUnmatched` | frontend/lib/services/media-service.ts:90 | text that no valid bucket and key build comes back unchanged |
| `S3Uri.S3UriToKeyStripsBucket` | frontend/lib/services/media-service.ts:89-90 | `s3://bucket/photos/a.png` gives `photos/a.png` |
| `S3Uri.S3UriToKeyNeedsBucket` | frontend/lib/services/media-service.ts:89 | an empty bucket (`s3:///a.png`) does not match and comes back unchanged |
| `S3Uri.S3UriToKeyNeedsKey` | frontend/lib/services/media-service.ts:89 | an empty key (`s3://bucket/`) does not match and comes back unchanged |
| `Normalize.NonEmpty` | frontend/lib/services/media-service.ts:148 | `value \|\| undefined` keeps a value exactly when it is a non-empty string |
| `Normalize.ImageToMediaItem` | frontend/lib/services/media-service.ts:143-156 | a picture carrying the record's id, name and date; the thumbnail doubles as the signed URL; a non-empty caption becomes the description and a non-empty thumbnail the thumbnail, an empty one becomes absent; a present size is kept and a missing one is 0; a stored type wins unless empty, else the type is inferred |
| `Normalize.DocumentToMediaItem` | frontend/lib/services/media-service.ts:158-169 | an item of the requested category with the record's id, name and date, size 0, an inferred type, no description or thumbnail, and the falsy signed URL `''` |
| `Normalize.CreateMediaItemFromSearch` | frontend/lib/services/media-service.ts:409-427 | a search hit stamped with the current time, size 0, an inferred type, no signed URL, the given description and category; the storage key is not used |
| `Normalize.SearchItemExample` | frontend/lib/services/media-service.ts:409-427 | a search hit for `photo.png` is an `image/png` picture of size 0 with no signed URL |
| `Normalize.ImageDefaultsExample` | frontend/lib/services/media-service.ts:148-153 | an image with no type, an empty caption and an empty thumbnail gets an inferred type, size 0 and no description, thumbnail or signed URL |
| `DateOrder.SortByDate` | frontend/lib/services/media-service.ts:171-173 | the result is a permutation of the input that is non-increasing in upload date |
| `DateOrder.InsertSorted` | frontend/lib/services/media-service.ts:172 | inserting one item into a newest-first list keeps it newest-first |
| `DateOrder.SortByDateOfSorted` | frontend/lib/services/media-service.ts:171-173 | a list already newest-first is returned unchanged |
| `DateOrder.SortByDateIdempotent` | frontend/lib/services/media-service.ts:171-173 | sorting twice equals sorting once |
| `DateOrder.InsertDatedAt` | frontend/lib/services/media-service.ts:172 | insertion puts an item in front of the items of its own date and disturbs no other date |
| `DateOrder.SortByDateStable` | frontend/lib/services/media-service.ts:172 | for every date, the items of that date keep their relative order (the built-in sort is stable) |
| `DateOrder.SortByDateStableAll` | frontend/lib/services/media-service.ts:172 | the same stability, stated for every date at once |
| `DateOrder.SortByDateMembers` | frontend/lib/services/media-service.ts:171-173 | sorting neither adds nor drops an item |
| `Diff.Ids` | frontend/lib/services/media-service.ts:180 | the id set holds exactly the ids of the list's items |
| `Diff.AnyUnseen` | frontend/lib/services/media-service.ts:181 | true exactly when some item's id is outside the given set |
| `Diff.HasNewItems` | frontend/lib/services/media-service.ts:178-182 | true whenever the lengths differ; for equal lengths, true exactly when some new item's id is not among the old ids |
| `Diff.HasNewItemsIrreflexive` | frontend/lib/services/media-service.ts:178-182 | a list never has news against itself |
| `Diff.HasNewItemsAppend` | frontend/lib/services/media-service.ts:179 | appending an item with an unseen id is news |
| `Diff.HasNewItemsPermutation` | frontend/lib/services/media-service.ts:178-182 | reordering either list (sorting it, say) does not change the answer |
| `Diff.DistinctIdsCount` | frontend/lib/services/media-service.ts:180 | a list with distinct ids has as many ids as items |
| `Diff.NoNewItemsSameIds` | frontend/lib/services/media-service.ts:178-182 | for equal-length lists with distinct ids, "no news" holds exactly when both carry the same id set |
| `Classify.Filter` | frontend/lib/services/media-service.ts:215 | keeps exactly the elements satisfying the predicate, each as often as in the input |
| `Classify.FreeTextSplit` | frontend/lib/services/media-service.ts:217 | after a separator, the matcher's free-text test agrees with the pattern's backtracking split into free text and extension |
| `Classify.FreeTextSplitPoint` | frontend/lib/services/media-service.ts:217 | free text the matcher accepts has a split point where the extension begins |
| `Classify.FreeTextFromSplit` | frontend/lib/services/media-service.ts:217 | any split point of the pattern makes the matcher's free-text test hold |
| `Classify.IsDatedLetterName` | frontend/lib/services/media-service.ts:217 | the matcher: a `dddd-dd-dd` date, then the extension `.md` or `.pdf` at once, or a separator, free text with no line terminator and the extension; its agreement with the pattern is `DatedLetterMatcherCorrect` |
| `Classify.DatedLetterMatcherCorrect` | frontend/lib/services/media-service.ts:217 | the hand-written matcher accepts exactly the names `^\d{4}-\d{2}-\d{2}(?:[_\-.].+)?\.(?:md\|pdf)$` describes |
| `Classify.DatedLetterWithText` | frontend/lib/services/media-service.ts:217 | `2024-01-15_notes.md` is a dated letter |
| `Classify.DatedLetterWithDashedText` | frontend/lib/services/media-service.ts:217 | `2024-01-15-report-final.pdf` is a dated letter |
| `Classify.DatedLetterBare` | frontend/lib/services/media-service.ts:217 | `2024-01-15.md` is a dated letter |
| `Classify.DatedLetterDateFirst` | frontend/lib/services/media-service.ts:217 | `report-2024-01-15.pdf` is not: the date must open the name |
| `Classify.DatedLetterCaseSensitive` | frontend/lib/services/media-service.ts:217 | `2024-01-15.MD` is not: the extension test is case-sensitive |
| `Classify.DatedLetterNeedsText` | frontend/lib/services/media-service.ts:217 | `2024-01-15_.md` is not: a separator must be followed by at least one character of free text |
| `Classify.Listable` | frontend/lib/services/media-service.ts:215-217 | a record is listed when its status is `INDEXED` and its name is no dated letter |
| `Classify.FilterListable` | frontend/lib/services/media-service.ts:214-218 | a fetched record is kept exactly when its status is `INDEXED` and its name is no dated letter, each kept record as often as listed |
| `Classify.ListableExample` | frontend/lib/services/media-service.ts:215-218 | `report-2024-01-15.pdf` is kept; `2024-01-15_notes.md` and a record still `PROCESSING` are dropped |
| `Classify.HasVideoExtension` | frontend/lib/services/media-service.ts:227 | the name ends, ignoring ASCII case, in `.mp4`, `.webm`, `.mov`, `.avi` or `.mkv`; the same test excludes videos at line 242 |
| `Classify.IsVideo` | frontend/lib/services/media-service.ts:225-228 | a record tagged as `media` of media type `video`, or named with a video extension |
| `Classify.IsDocument` | frontend/lib/services/media-service.ts:239-243 | a record of type `document` with no truthy media type and no video extension |
| `Classify.VideoDocumentExclusive` | frontend/lib/services/media-service.ts:225-243 | no record passes both the video and the document test |
| `Classify.HasVideoExtensionCaseInsensitive` | frontend/lib/services/media-service.ts:227 | the video-extension test ignores the case of the name |
| `Classify.ToItems` | frontend/lib/services/media-service.ts:230 | the mapped items are the records' items, one for one and in order |
| `Classify.ToItemsMember` | frontend/lib/services/media-service.ts:230 | an item is in the mapped list exactly when it is the image of one of the records |
| `Classify.ViewOf` | frontend/lib/services/media-service.ts:224-248 | a view is newest-first and never paginated, holds the images of the kept records as a multiset, one per kept record (equal records give equal items, counted apiece), with items of equal date in the order of their records, and each carries the view's category, size 0 and signed URL `''` |
| `Classify.ViewMember` | frontend/lib/services/media-service.ts:225-230 | an item is in a view exactly when it is the image of a kept record |
| `Classify.ViewMembers` | frontend/lib/services/media-service.ts:225-230 | the membership of a view, stated for every item at once |
| `Classify.ViewItemsShape` | frontend/lib/services/media-service.ts:158-169 | every item of a view carries the view's category, size 0 and signed URL `''` |
| `Classify.BuildVideosPage` | frontend/lib/services/media-service.ts:224-233 | the videos view: the records tagged as video media or named with a video extension in any case, each mapped to a videos item, as a multiset, newest first with ties in record order, and with `hasMore` false |
| `Classify.BuildDocumentsPage` | frontend/lib/services/media-service.ts:238-248 | the documents view: records of type `document` with no media tag and no video extension, each mapped to a documents item, as a multiset, newest first with ties in record order, and with `hasMore` false |
| `Classify.ViewsDisjoint` | frontend/lib/services/media-service.ts:224-248 | when document ids are distinct, no id is in both the videos and the documents view |
| `Classify.UntaggedMp4IsVideo` | frontend/lib/services/media-service.ts:227-242 | an untagged `holiday.MP4` document is a video and not a document |
| `MediaCache.HasMore` | frontend/lib/services/media-service.ts:279 | more pages exist exactly when the cursor is present and non-empty |
| `MediaCache.ImageItems` | frontend/lib/services/media-service.ts:272 | the page's records as pictures, one for one and in order |
| `MediaCache.ViewPageMember` | frontend/lib/services/media-service.ts:317-319 | an item of a view is the image of one of the listed records |
| `MediaCache.GetPictures` | frontend/lib/services/media-service.ts:268-313 | which request each branch waits for; load more stores the old items followed by the new page, newest first with ties in that order, and the new cursor; serving the cache returns its items newest first with ties in stored order, with no request, and spawns a refresh; otherwise the first page, newest first with ties in page order, replaces the slot; a failure leaves the cache alone; the documents slot is never touched |
| `MediaCache.CompletePictureRefresh` | frontend/lib/services/media-service.ts:291-300 | the callback fires exactly when the fetched page has news against the slot's current items (none once invalidated); it then replaces items and cursor and pushes the fetched page newest first, ties in page order; otherwise nothing changes |
| `MediaCache.GetView` | frontend/lib/services/media-service.ts:315-346 | a warm slot with a callback serves the view of the cached list, with no request and no change; otherwise the filtered listing replaces the slot and its view is returned; a failure leaves the cache alone; the pictures slot is never touched |
| `MediaCache.CompleteViewRefresh` | frontend/lib/services/media-service.ts:322-335 | the callback fires exactly when the fresh view has news against the view of the current slot; it then replaces the whole slot and pushes the view of the new slot; otherwise nothing changes |
| `MediaCache.GetMediaItems` | frontend/lib/services/media-service.ts:261-347 | a pictures call leaves the documents slot alone, a videos or documents call leaves the pictures slot alone, and every page handed back is newest-first |
| `MediaCache.InvalidateMediaCache` | frontend/lib/services/media-service.ts:352-355 | both slots are cold afterwards |
| `MediaCache.ResetPagination` | frontend/lib/services/media-service.ts:360-364 | the pictures slot is cold afterwards and the documents slot is unchanged |
| `MediaCache.PicturesPageOrigin` | frontend/lib/services/media-service.ts:270-312 | every item of a pictures page comes from the old slot or the fetched page |
| `MediaCache.ColdCacheValid` | frontend/lib/services/media-service.ts:47-55 | the empty start-up cache satisfies the invariant, the base case for `GetMediaItemsPreservesValid` |
| `MediaCache.GetMediaItemsPreservesValid` | frontend/lib/services/media-service.ts:261-347 | every call keeps the pictures stored sorted and all pictures, and keeps every cached document listable |
| `MediaCache.ServedItemsCarryCategory` | frontend/lib/services/media-service.ts:261-347 | on a valid cache, every item handed back carries the requested category |
| `MediaCache.PictureRefreshPreservesValid` | frontend/lib/services/media-service.ts:291-299 | a completed picture refresh keeps the cache valid: a replaced slot is sorted and all pictures |
| `MediaCache.ViewRefreshPreservesValid` | frontend/lib/services/media-service.ts:322-335 | a completed view refresh keeps the cache valid: a replaced documents slot holds only listable records |
| `MediaCache.ClearingPreservesValid` | frontend/lib/services/media-service.ts:352-364 | invalidation and reset keep the cache valid |
| `MediaCache.ServingCachedPicturesKeepsCache` | frontend/lib/services/media-service.ts:284-288 | on a valid cache, serving pictures from the cache leaves the cache unchanged, though the source re-sorts the stored array |
| `MediaCache.LoadMoreWhenColdIsFirstFetch` | frontend/lib/services/media-service.ts:270-312 | load more on a cold slot is an ordinary first-page fetch, whatever the callback |
| `MediaCache.LoadMoreWhenExhaustedRestarts` | frontend/lib/services/media-service.ts:270-271 | load more on a slot with a null cursor requests the first page |
| `MediaCache.InvalidationForgetsHistory` | frontend/lib/services/media-service.ts:352-355 | after invalidation, a call's outcome does not depend on what was cached before |
| `MediaCache.ResetRestartsPagination` | frontend/lib/services/media-service.ts:360-364 | after a reset, load more requests the first page |
| `MediaCache.ServedViewsAreListable` | frontend/lib/services/media-service.ts:215-218 | on a valid cache, every item of a videos or documents page is the image of a cached record that is `INDEXED` and no dated letter |
| `MediaCache.RefreshAfterInvalidationRepopulates` | frontend/lib/services/media-service.ts:291-294 | a picture refresh that completes after an invalidation repopulates the slot whenever the fresh page is not empty |
| `MediaCache.RefreshWithSamePicturesIsQuiet` | frontend/lib/services/media-service.ts:291-299 | a refresh returning the cached pictures in any order neither fires the callback nor changes the cache |
| `Resolve.FindDocument` | frontend/lib/services/media-service.ts:374 | the index of the first record with the id, or none exactly when no record has it |
| `Resolve.ConsultedDocuments` | frontend/lib/services/media-service.ts:373 | the cached list when the slot is warm (an empty list counts as warm), else the filtered fresh listing or its failure |
| `Resolve.ResolveSignedUrl` | frontend/lib/services/media-service.ts:369-380 | a truthy signed URL is returned with no request; otherwise the listing is requested only when the slot is cold, the call fails with not-found exactly when no consulted record has the id, and otherwise succeeds (unless the listing fetch itself fails), handing on the storage key of the first consulted record with that id, as `find` returns it |
| `Resolve.PictureWithThumbnailIsReady` | frontend/lib/services/media-service.ts:369-371 | a picture with a thumbnail resolves at once, to the thumbnail |
| `Resolve.SignedItemExample` | frontend/lib/services/media-service.ts:370-371 | an item signed as `https://x` resolves to `https://x` with no request |
| `Resolve.FindDocumentDistinct` | frontend/lib/services/media-service.ts:374 | with distinct ids, the lookup finds a record's own index |
| `Resolve.ResolveFromCache` | frontend/lib/services/media-service.ts:370-378 | an unsigned item found in the warm slot resolves, with no request, to that record's storage key |
| `Resolve.DocumentItemResolves` | frontend/lib/services/media-service.ts:369-378 | with distinct cached ids, the item made from a cached record resolves, with no request, to that record's storage key |
| `Resolve.ViewItemsResolveToTheirKey` | frontend/lib/services/media-service.ts:369-378 | every item of a view served from a cache with distinct ids resolves, with no request, to its own record's storage key: `''` forces the lookup, and the lookup cannot miss |

## Left out

- `ragstackQuery`, `fetchImages` and `fetchDocuments` as HTTP calls, `getPresignedUrl`, `getPresignedUrlForKey` and `getImageById`: network I/O, environment configuration and the authentication store. Their answers are parameters of the steps, and the resolver stops at the storage key to be signed.
- Interleaving of background refreshes with other calls: the model is sequential. A refresh completes as its own step, in any order the caller picks. One effect is not modelled: the source reads the pictures slot again after awaiting the next page, so an invalidation during that wait makes the call throw.
- `console.error` logging of failed background refreshes: a failed refresh is a step that changes nothing.
- ISO-8601 parsing and `toISOString()`: dates are integers, and the current time is a parameter of `CreateMediaItemFromSearch`. Unparseable dates (a `NaN` comparator result) are not modelled.
- A `NaN` file size (`fileSize || 0` maps it to 0) is not modelled: sizes are integers.
- `items || []` on a null listing: listings are sequences, and a null one is the empty sequence.
- Full Unicode `toLowerCase`: the model folds ASCII capitals only. For the table lookup this loses nothing. The only non-ASCII character whose lower case is all ASCII is KELVIN SIGN, which becomes `k`, and no table key contains `k` (U+0130 lowers to `i` followed by a combining dot, which is not ASCII). The video-extension test is different: `mkv` does contain `k`, but that test is a case-insensitive regular expression without the `u` flag, which folds ASCII letters only and never matches KELVIN SIGN against `k`. ASCII folding is therefore exact for it too.
- Strings are sequences of Unicode scalar values, not UTF-16 code units. None of the tests here depends on the difference.
- `backend/lambdas/admin-provisioner/index.py` and `backend/lambdas/frontend-builder/index.py` are not part of this model. They are thin wrappers over Cognito, CloudFormation and CodeBuild.

## Findings

| source | as written | input that shows it | evidently intended | confidence | as-written member | corrected member |
|---|---|---|---|---|---|---|
| frontend/lib/services/media-service.ts:122-140 | the extension indexes a plain object literal, so names every object inherits also resolve; after lower-casing, `constructor` and `__proto__` are reachable, and their truthy values (a function, the prototype) are returned instead of the fallback | `notes.constructor` | every extension missing from the table yields `application/octet-stream` | not executed; follows from JavaScript property lookup | `ContentType.InferContentTypeAsWritten`, `ContentType.AsWrittenInheritedCounterexample` | `ContentType.InferContentType` |
