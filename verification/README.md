# GArchive: a verified model of the upload lifecycle

GArchive keeps file metadata in Postgres, caches it in Redis, stores objects (and open multipart
uploads) in S3-compatible storage and announces changes on Kafka. A file goes from pending to ready
to deleted through calls that touch these four stores statement by statement; only the single
statements are atomic. This project models those calls and proves what they keep.

The layers, from the bottom:

- **Values and arithmetic.** `Domain` (the record, int32/int64 wrap-around), `PartSizes` (part count
  and tiling), `Text`, `Validation`, `ObjectKeys` (`path.Join` and its cleaning), `PageTokens`,
  `Uuids` (the spellings PostgreSQL accepts for a UUID).
- **Part checks and listing.** `Completion` (the validation loop of a completion), `Ordering`,
  `Keyset` (keyset pagination in the abstract), `Pagination` (the List query, pages, walks).
- **The step machine.** `Protocol`: a call is a program counter and local variables, every statement
  to the repository, cache, storage or log is one step, and any of them may fail. `Run` is an
  arbitrary interleaving of any number of calls, cache evictions and client uploads.
- **Safety under every interleaving.** `Lifecycle` (the invariant), `ExactlyOnce` (events),
  `Versions` (copies and cache entries), `Provenance` (the creation and the confirmation behind
  the contents of a row), `EventOrder` (the orders in which events can appear),
  `UploadAccounting` (open uploads), `PartAccounting` (part rows), `ObjectAccounting` (stored
  objects), `OwnerFrame` (other owners), `LiveWalk` (page walks while the service runs), `Races` (runs that end in disorder where a condition is not met).
- **Sequential runs.** `Sequential` (a call as an uninterrupted run of the same machine, with
  termination), `Calls`, `Records` (what each write makes of a record, field by field), `Outcomes`,
  `Deletions`, `PartUrls` and `Reports` (when a call succeeds, with which error it fails, and the
  whole of what it leaves), `CacheRefinement`, `EventHistory`, `SequentialUploads`.
- **The service as code.** `Service.FileService` is a class whose fields are the stores and whose
  methods execute the statements in the order of the Go code. Each is proved equal to the sequential
  run of the step machine, so every theorem above is about it; `ListFiles` checks the owner and
  lists the rows as they are.

Failures are inputs: a run says for each statement whether it succeeds, what the clock reads and
which upload id storage hands out. Cache, event and cleanup failures are ignored by the calls, as in
the code; the other failures end the call with an error.

Ids arrive as text. The repository matches them by UUID value, whatever their spelling; the cache is
keyed by text, filled under the canonical id and read and invalidated under the caller's spelling.
A delete or an abort in another spelling therefore leaves a live cache entry behind: the agreement
of cache and repository holds under an exact condition, and `Races` shows a run that breaks it.

`dafny verify dfyconfig.toml` checks the project.

## Model

| member | source | states |
|---|---|---|
| `PartSizes.TotalPartsExactIff` | internal/domain/file.go:58-63 | the wrapping, truncating part count equals the mathematical ceiling exactly when the sum fits int64 and the ceiling fits int32 |
| `PartSizes.OverflowMissesCeiling` | internal/domain/file.go:62-62 | a wrapped int64 sum never gives the true count by accident |
| `PartSizes.AcceptedCreateIsExact` | internal/service/multipart_service.go:38-43 | with a part size of at least 5 MiB and a positive cap of at most 5 MiB*(2^31-1), every accepted multipart creation has an exact count of at least 2, and at most 1024 under the 5 GiB cap |
| `PartSizes.UncappedCreateMiscounts` | internal/validation/validation.go:44-52 | without a cap an accepted creation can have a wrong count |
| `PartSizes.ValidPartHasDivisor` | internal/service/multipart_service.go:245-261 | once a part number has passed validation, the modulo has a positive divisor |
| `PartSizes.PartsAreContiguous` | internal/service/multipart_service.go:252-261 | every part has between 1 and PartSize bytes and ends where the next begins, the last at the end of the file |
| `PartSizes.PartSizesSumToFile` | internal/service/multipart_service.go:252-261 | the sizes of parts 1..N add up to the file size |
| `PartSizes.PartsCoverFile` | internal/service/multipart_service.go:252-261 | every byte of the file lies in the part of its quotient |
| `PartSizes.PartsAreDisjoint` | internal/service/multipart_service.go:252-261 | a byte lies in no other part, and no part reaches outside the file |
| `Text.SpaceIff` | internal/service/file_service.go:240-240 | the characters TrimSpace removes, by code point |
| `Validation.ValidOwnerIff` | internal/validation/validation.go:17-25 | an owner is accepted exactly with 1 to 128 letters, digits, underscores and hyphens; the search for ".." never decides |
| `Validation.ValidContentTypeIff` | internal/validation/validation.go:27-32 | a content type is accepted exactly when it has one slash with a name of 1 to 127 characters of the alphabet on either side |
| `Validation.ValidChecksumIff` | internal/validation/validation.go:34-42 | a checksum is accepted exactly when it is empty or has 64 hexadecimal digits in either case |
| `Validation.ValidCreateIff` | internal/validation/validation.go:44-65 | a creation is accepted exactly with a name, a valid owner and content type, and a size from 1 up to the cap, where a cap that is not positive is none |
| `ObjectKeys.SanitizeIff` | internal/service/file_service.go:237-245 | the sanitised name is the name with underscores for its separators and without the spaces at its ends, or "file" when nothing is left |
| `ObjectKeys.SanitizeIsIdempotent` | internal/service/file_service.go:237-245 | a sanitised name is non-empty, trimmed and separator-free, and sanitising again changes nothing |
| `ObjectKeys.KeySegments` | internal/service/file_service.go:83-83 | the segments of the cleaned key for every accepted upload, dot names included; the first one is the owner |
| `ObjectKeys.KeyShapeIff` | internal/service/file_service.go:83-83 | the key is owner/id/name exactly when the sanitised name is not "." or ".." |
| `ObjectKeys.KeysCollideIff` | internal/service/file_service.go:83-83 | two accepted uploads share a key exactly when owner and sanitised name agree and either the id does too or the name is ".." |
| `ObjectKeys.DotsShareKey` | internal/service/file_service.go:83-83 | all accepted uploads of one owner named ".." have the owner alone as their key |
| `ObjectKeys.AcceptedKeysCollide` | internal/service/file_service.go:83-83 | two accepted uploads with different ids and the same key |
| `PageTokens.TokenRoundTrip` | internal/repository/postgres/file.go:208-224 | decoding an encoded token returns the instant and the id, for all int64 nanoseconds and canonical ids |
| `PageTokens.TokenText` | internal/repository/postgres/file.go:208-210 | a token is the signed decimal numeral of the nanoseconds without leading zeros, a bar and the id |
| `PageTokens.DecodeIff` | internal/repository/postgres/file.go:212-224 | a token is accepted exactly when it is an optional sign, a decimal numeral that fits int64, a bar and a UUID in either case, and it then stands for that instant and id |
| `PageTokens.TokensAreInjective` | internal/repository/postgres/file.go:208-210 | different cursors print different tokens |
| `PageTokens.DecodedTimeIsNotZero` | internal/repository/postgres/file.go:212-224 | a token that decodes never decodes to the zero time, so it always switches the cursor filter on |
| `Uuids.CanonIsCanonicalIff` | internal/repository/postgres/migrations/001_init.sql:3-3 | the UUID column resolves a text to a canonical id exactly when it accepts the text, and a canonical id to itself |
| `Uuids.BracedParses` | internal/repository/postgres/migrations/001_init.sql:3-3 | an id in braces is another spelling of the same value |
| `Uuids.AcceptedIff` | internal/repository/postgres/migrations/001_init.sql:3-3 | the column accepts exactly eight groups of four hexadecimal digits, with or without a hyphen between two of them and braces around the whole |
| `Uuids.ParsedSameDigits` | internal/repository/postgres/migrations/001_init.sql:3-3 | whatever spelling the column accepts, its 32 digits are those of the canonical id |
| `Uuids.CaseIsFolded` | internal/repository/postgres/migrations/001_init.sql:3-3 | texts that differ only in the case of digits name the same id, or both none |
| `Uuids.UndashedParses` | internal/repository/postgres/migrations/001_init.sql:3-3 | the digits without hyphens, in either case, are another spelling of the id |
| `Completion.CheckParts` | internal/service/multipart_service.go:169-185 | the loop accepts a listing exactly when it has N entries whose numbers are {1..N}, and returns number and ETag of each in order |
| `Completion.CheckedIff` | internal/service/multipart_service.go:169-185 | by pigeonhole, the count, range and duplicate checks hold together exactly for the permutations of 1..N, even where the int32 length wraps |
| `Completion.CompletionIff` | internal/service/multipart_service.go:165-187 | over the ordered listing of stored parts the checks pass exactly when the numbers are {1..N}, and storage then gets (1,e1)..(N,eN) in order |
| `Completion.OnlyMissingPartsFail` | internal/service/multipart_service.go:169-185 | with stored numbers in range, only a missing part can fail the checks |
| `Completion.ListingFacts` | internal/repository/postgres/file.go:81-103 | the listing holds every stored part once, with its ETag and time, in ascending order of the numbers |
| `Ordering.SortSorts` | internal/repository/postgres/file.go:86-86 | ORDER BY yields every element once, in strict order |
| `Ordering.SortIsUnique` | internal/repository/postgres/file.go:133-133 | two strictly ordered sequences of the same elements are equal, so the order clause fixes the result |
| `Keyset.TakenIsSorted` | internal/repository/postgres/file.go:128-139 | queries chained by their last element deliver a strictly ordered sequence, whatever each of them matched |
| `Keyset.TakenFinds` | internal/repository/postgres/file.go:128-139 | an element every query offers is delivered by a chain that reaches its end |
| `Pagination.List` | internal/repository/postgres/file.go:111-167 | a page asked for with a size in 1..100 holds exactly min(size, matches) files, the first matches in order, and a token exactly when more match; any other size counts as 20; a malformed token and a connection that breaks before the last row are errors |
| `Pagination.PageServes` | internal/repository/postgres/file.go:112-166 | the same for each page of a walk: as many of the matches as were asked for, each the row as stored, and a token exactly when more match |
| `Pagination.TextBeforeIff` | internal/repository/postgres/file.go:133-133 | the order of ids is decided at the first character where they differ |
| `Pagination.Receive` | internal/repository/postgres/file.go:147-157 | the row loop and the final error check return all rows of the query, or an error and none of them |
| `Pagination.WalkIsTurns` | internal/repository/postgres/file.go:117-166 | following printed tokens delivers the same files, in as many pages and with the same end, as chaining the queries by their cursors |
| `Pagination.WalkDescends` | internal/repository/postgres/file.go:128-139 | a walk over changing tables delivers strictly descending (created_at, id) keys |
| `Pagination.WalkNeverRepeats` | internal/repository/postgres/file.go:111-167 | no file is delivered twice, for any page sizes and any changes between pages |
| `Pagination.FinishedWalkIsComplete` | internal/repository/postgres/file.go:111-167 | a walk that reaches its end has delivered every file that stayed live at each page |
| `Pagination.RestOfMatches` | internal/repository/postgres/file.go:128-139 | the query at the cursor of the i-th match returns exactly the matches after it |
| `Pagination.FixedTableListing` | internal/repository/postgres/file.go:111-167 | on a fixed table and for any requested sizes, a finished walk delivers exactly the files of the owner that are not deleted; they come newest first, by id where the times are equal, and before the end they are a prefix |
| `Pagination.FixedWalkLength` | internal/repository/postgres/file.go:112-166 | a walk over m files that asks for p at a time ends after exactly max(1, ceil(m/p)) pages for p in 1..100, and as with 20 for any other p |
| `Pagination.FixedWalkFinishes` | internal/repository/postgres/file.go:112-166 | with any mixture of page sizes a walk over m files ends after at most max(1, m) pages, since the remaining suffix shrinks |
| `Lifecycle.NextKeepsInv` | internal/service/file_service.go:76-231 | every step of every interleaving, with any failure, keeps the store and call invariants and only advances rows |
| `Lifecycle.RunKeepsInv` | internal/service/multipart_service.go:37-243 | the invariants hold after every run |
| `Lifecycle.RowsOnlyMoveForward` | internal/repository/postgres/file.go:51-68 | between any two moments of any run a row's status only moves forward, its identity never changes, its checksum is written at most once on the way out of pending, and versions of equal status are equal |
| `Lifecycle.RowShape` | internal/repository/postgres/file.go:51-57 | in every reachable state multipart mode, upload id and part size come together or not at all, and a ready row is single-mode with zero parts |
| `Lifecycle.CompletionFailsOnlyOnMissingParts` | internal/service/multipart_service.go:165-185 | in every reachable state the parts a completion finds are in range with non-empty ETags, so its checks pass exactly when as many parts are stored as the file has |
| `Lifecycle.PendingRowParts` | internal/service/multipart_service.go:110-127 | in every reachable state the stored parts of a pending multipart row lie in 1..N with non-empty ETags, so only a missing part can fail its checks |
| `ExactlyOnce.EventsAtMostOnce` | internal/service/file_service.go:104-109 | under every interleaving at most one event of each kind is published for a file, about its own row and never before its transition |
| `ExactlyOnce.ReadyAnnouncedIff` | internal/service/file_service.go:140-146 | with a reliable publisher a ready event is published, or owed by a call, exactly for the files that have been ready at some moment of the run |
| `ExactlyOnce.QuietLogMatchesRows` | internal/repository/postgres/file.go:169-182 | with a reliable publisher, once all calls have returned, created is published exactly for the existing rows, ready exactly for the files that have been ready, and deleted exactly for the deleted rows |
| `Versions.CacheHoldsEarlierVersions` | internal/service/file_service.go:145-178 | under every interleaving, failure and eviction a cached entry is a value its row once had, with the same identity and owner and a status no later than the row's |
| `Versions.DownloadNeedsReady` | internal/service/file_service.go:192-206 | a download URL goes only to the owner, for the key of a file that has been ready |
| `Versions.GetFileReturnsOwnVersions` | internal/service/file_service.go:151-178 | GetFile answers with a non-deleted value the row once had, and only to its owner |
| `Versions.LateFillAgreesIff` | internal/service/file_service.go:176-177 | a cache fill leaves the entry equal to the row exactly when the row's status has not changed since the copy was taken |
| `Provenance.RowsComeFromCreations` | internal/service/file_service.go:81-97 | under every interleaving owner, bucket, key, name, content type, size and creation time of a row are those of a creation that arrived for its id |
| `Provenance.ChecksumOrigin` | internal/repository/postgres/file.go:51-57 | under every interleaving a row that has been ready carries the checksum of the request whose confirmation took it, and while it is ready the time of that update; any other row has no checksum |
| `Provenance.TakenOnce` | internal/repository/postgres/file.go:51-57 | under every interleaving at most one row update takes a pending row to ready |
| `UploadAccounting.StepAccountsIff` | internal/service/multipart_service.go:187-222 | from a state in good order, a statement leaves no orphaned upload and no dangling pending row exactly when: a row it takes out of pending has its upload closed or some call whose next statement closes it (DeleteFile goes on to close it itself), a close that fails leaves the upload to a pending row or to another such call, and a row update that fails leaves a row whose upload is closed to another call about to take it |
| `UploadAccounting.OpenUploadsArePendingRows` | internal/service/multipart_service.go:49-73 | in every interleaving whose statements meet that condition, once all calls have returned the open uploads are exactly those of the pending multipart rows |
| `UploadAccounting.ReliableRunsAreCareful` | internal/service/multipart_service.go:187-215 | the condition is met by every run in which rollbacks and aborts in storage and the row updates of completions and aborts do not fail, an assembly fails only while its row is pending, and ConfirmUpload takes no pending multipart row unless a call is about to close its upload |
| `UploadAccounting.ConfirmOrphansIff` | internal/service/file_service.go:118-149 | from a state in good order, a ConfirmUpload orphans an upload exactly when it takes a pending multipart row whose upload is open and no call is at a statement that closes it |
| `PartAccounting.SaveLeavesStrayIff` | internal/service/multipart_service.go:109-131 | saving a report leaves no stray part row exactly when the row is still a pending multipart upload that no abort is about to delete, or a call will still delete its parts |
| `PartAccounting.StepKeepsPartsIff` | internal/service/multipart_service.go:187-215 | with deletions of part rows that do not fail, any statement leaves no stray part row exactly when it is not such a save and not a ConfirmUpload over part rows nobody else will delete |
| `PartAccounting.PartsArePendingRows` | internal/service/multipart_service.go:203-215 | in every interleaving whose statements meet that condition, once all calls have returned only pending multipart rows have part rows |
| `ObjectAccounting.ObjectOutlivesRowIff` | internal/service/file_service.go:214-223 | which action lets an object outlive its row: exactly a client upload or an assembly under a key no live row and no pending removal holds, a deletion over an object it will not remove, or a failed removal no other call makes up for |
| `ObjectAccounting.ObjectsHaveLiveRows` | internal/service/file_service.go:214-223 | in every interleaving without such an action, once all calls have returned every stored object belongs to a live row |
| `OwnerFrame.OthersAreUntouched` | internal/service/file_service.go:118-231 | while only calls of one owner execute, the rows, parts, cache entries, uploads, objects and events of every other owner stay as they are |
| `OwnerFrame.IdentitiesHold` | internal/service/file_service.go:81-97 | in every reachable state every row has a canonical id, a valid owner and the key made from them |
| `OwnerFrame.ReachableCountsAreExact` | internal/domain/file.go:58-63 | in every reachable state, under the configured bounds, the part count of a multipart row is the mathematical ceiling, at least 2, and at most 1024 with the 5 GiB cap |
| `LiveWalk.NoFileTwice` | internal/repository/postgres/file.go:111-167 | a walk whose pages are read at any moments of any interleaved run returns no file twice |
| `LiveWalk.LastingFileReturnedOnce` | internal/repository/postgres/file.go:111-167 | a file live at the first and at the last page of a walk that reached its end was returned at exactly one place |
| `Sequential.StepDropsRank` | internal/service/file_service.go:208-231 | every statement brings its call closer to its end, so every call terminates |
| `Sequential.PerformKeepsInv` | internal/service/file_service.go:76-231 | a sequential call returns and keeps the store invariant |
| `Sequential.PlayIsARun` | internal/service/file_service.go:76-231 | every sequential run is one of the interleaved runs, so the interleaving theorems apply to it |
| `Calls.ReadsThroughGetFile` | internal/service/file_service.go:192-212 | GetDownloadURL and DeleteFile are GetFile followed by their own statements |
| `Calls.PendingRead` | internal/service/multipart_service.go:224-243 | the multipart calls go on exactly with what getPendingMultipart returns, and end with its error otherwise |
| `Calls.PendingForIff` | internal/service/multipart_service.go:224-243 | getPendingMultipart returns exactly the caller's own pending multipart row that has an upload, and each error has its exact condition |
| `Calls.ListsParts` | internal/service/multipart_service.go:133-150 | ListUploadParts answers upload, part size, part count and the listing of the stored parts of the pending row, or the error, and changes nothing |
| `CacheRefinement.InvalidateAgreesIff` | internal/service/file_service.go:224-224 | dropping the entry of a deleted file leaves the cache in agreement exactly when the caller spelled the id canonically or the file is not cached at that moment |
| `CacheRefinement.CacheAlwaysAgrees` | internal/service/file_service.go:145-178 | when calls come one after the other, the cache executes its writes and every delete meets that condition, with evictions at any moment, also inside a call, every cached entry equals its row and the row is not deleted |
| `CacheRefinement.CanonicalIsObedient` | internal/cache/redis/cache.go:51-61 | a reliable cache and canonical ids in deletes and aborts are enough for that condition |
| `CacheRefinement.SerialRunRefines` | internal/service/file_service.go:151-231 | to every such run there is a run of the service without a cache that takes every call to the same point with the same result and leaves the same rows, parts, uploads, objects and events |
| `CacheRefinement.SameResults` | internal/service/file_service.go:151-231 | with canonical ids in deletes and aborts, every call returns what the service without a cache returns |
| `EventHistory.HistoryExplainsStatus` | internal/service/file_service.go:214-228 | in sequential runs with a reliable publisher a pending file's history is [created], a ready one's [created, ready], a deleted one's [created, deleted] or [created, ready, deleted], and any other id's is empty |
| `EventOrder.QuietHistory` | internal/service/file_service.go:104-109 | under every interleaving with a reliable publisher, once all calls have returned, a history repeats nothing and holds created, ready and deleted exactly if the file exists, has been ready and is deleted |
| `EventOrder.EveryOrderOccurs` | internal/service/file_service.go:140-146 | every arrangement of created, with or without ready, with or without deleted, is the history of a file in some such run, since a call can be overtaken before it publishes |
| `EventOrder.HistoryOccursIff` | internal/service/file_service.go:214-228 | the non-empty histories that occur are exactly the arrangements without repetition that hold created |
| `SequentialUploads.UploadsAndPartsArePending` | internal/service/multipart_service.go:187-215 | in sequential runs where rollbacks and aborts in storage, deletions of part rows and the row updates of completions and aborts do not fail and ConfirmUpload is called on no pending multipart file, the open uploads are exactly those of the pending multipart rows, also after failed insertions and assemblies, and only those rows have part rows |
| `Reports.ReportIff` | internal/service/multipart_service.go:109-131 | a report is an upsert of the ETag without its spaces and quotes, with the time of the call, exactly when it is acceptable; otherwise it changes nothing and fails with the reason, an ETag of nothing but quotes and spaces included |
| `Reports.NormalizedIff` | internal/service/multipart_service.go:263-266 | the stored ETag t is the one text for which the reported one is spaces, quotes, t, quotes, spaces, with no space at either end of the quoted text and no quote at either end of t |
| `Reports.BlankIff` | internal/service/multipart_service.go:117-120 | nothing is left of an ETag exactly when it is quotes only between spaces |
| `Reports.PartsAfterReports` | internal/repository/postgres/file.go:70-79 | any sequence of reports leaves the last accepted report of each number and touches nothing else |
| `Reports.CompletedListIsLastTags` | internal/service/multipart_service.go:174-187 | after reports that cover 1..N, completion hands storage (1,e1)..(N,eN) where each e is the last accepted ETag of its number without spaces and quotes, and a success leaves the object assembled from that list |
| `Reports.ReportOrderDoesNotMatter` | internal/service/multipart_service.go:109-131 | two sequences of reports whose last ETags agree for each number, however they are quoted, lead to the same completed list |
| `Outcomes.ConfirmSucceedsIff` | internal/service/file_service.go:118-149 | ConfirmUpload succeeds exactly for the owner of a pending file: the row becomes ready with the checksum of the request and the time of the call, single-mode without upload and part size, with all else as before; the caller, the cache and the log get that row, nothing else changes, and a failure changes nothing and has its exact error |
| `Outcomes.CompleteSucceedsIff` | internal/service/multipart_service.go:152-201 | a completion succeeds exactly for the owner of a pending multipart file with an open upload and the parts 1..N: the upload is closed, the object assembled from them, the row ready with the checksum of the request and the time of the call, the part rows gone; the only failure that changes anything is a repository failure after the object was assembled |
| `Deletions.GetFileReads` | internal/service/file_service.go:151-178 | what GetFile returns and how it fills the cache: lookup under the text given, row read by value, fill under the id of the row |
| `Deletions.DownloadReads` | internal/service/file_service.go:192-206 | what GetDownloadURL returns, in terms of what GetFile finds |
| `Deletions.DeleteSucceedsIff` | internal/service/file_service.go:208-231 | DeleteFile succeeds exactly for the owner of a live row that GetFile finds; the row is deleted at the time of the call with all else as before, the upload of a pending multipart copy is closed or the object of any other removed, the cache entry under the text given dropped and the copy announced; a failure changes only the cache and has its exact error |
| `Deletions.AbortSucceedsIff` | internal/service/multipart_service.go:203-222 | an abort succeeds exactly for the owner of a pending multipart row when the row update does not fail; the row is deleted at the time of the call with all else as before, its upload closed and its part rows gone; a failing update leaves a pending row whose upload is closed |
| `Deletions.DeleteAgreesIff` | internal/service/file_service.go:208-224 | over a reliable cache a successful DeleteFile leaves the cache in agreement exactly when the id is spelled canonically |
| `Deletions.AbortAgreesIff` | internal/service/multipart_service.go:212-215 | a successful abort leaves the cache in agreement exactly when the id is spelled canonically or the file is not cached |
| `Deletions.DeletedFileIsServed` | internal/service/file_service.go:151-231 | after a DeleteFile in any other spelling GetFile still returns the live file and GetDownloadURL the key of a ready one; without a cache both report not found |
| `Outcomes.CreateMultipartSucceedsIff` | internal/service/multipart_service.go:37-84 | a multipart creation adds a row and its open upload together, or neither unless the rollback fails; stored and returned is a pending multipart record with id, owner, name, content type and size of the request, the configured bucket and part size, the upload storage opened, no checksum and the time of the call in both time fields |
| `Outcomes.CreateUploadSucceedsIff` | internal/service/file_service.go:76-116 | CreateUpload succeeds exactly for an accepted request whose URL is signed and whose id and key are free; stored and returned is a pending single-mode record with id, owner, name, content type and size of the request, the configured bucket, no checksum and the time of the call in both time fields; a failure changes nothing |
| `PartUrls.PartUrlSucceedsIff` | internal/service/multipart_service.go:86-107 | GetPartUploadURL succeeds exactly for the owner of a pending multipart file and a number in 1..N; it hands out the key and upload id of the row, the number asked for and the size of that part, which starts where the one before ends and ends where the next starts or with the file; the stores never change |
| `PartUrls.SizesReachNextPart` | internal/service/multipart_service.go:252-261 | after calls for the parts 1..n the sizes handed out add up to the offset of part n+1, and for n = N to the size of the file |
| `PartUrls.SizesHandedOutSumToFile` | internal/service/multipart_service.go:86-107 | in every reachable state, under the configured bounds, the sizes handed out for the parts 1..N of a pending file add up to the file |
| `Outcomes.ConfirmBalancesIff` | internal/service/file_service.go:118-149 | a successful ConfirmUpload keeps the uploads accounted for exactly when the file is not multipart |
| `Outcomes.CompleteBalancesIff` | internal/service/multipart_service.go:152-201 | a completion keeps the uploads accounted for, unless the row update fails after the upload was closed |
| `Outcomes.AbortBalancesIff` | internal/service/multipart_service.go:203-222 | an abort keeps the uploads accounted for exactly when it finds no pending row of the caller or its close and its row update both succeed or both fail |
| `Outcomes.DeleteBalancesIff` | internal/service/file_service.go:208-231 | DeleteFile keeps the uploads accounted for, unless it deletes a pending multipart row and fails to close its upload |
| `Outcomes.CreateBalancesIff` | internal/service/multipart_service.go:49-73 | a multipart creation keeps the uploads accounted for, unless its insertion and its rollback both fail |
| `Outcomes.CreateThenConfirmOrphans` | internal/service/file_service.go:140-149 | a multipart creation followed by ConfirmUpload always leaves an orphaned upload |
| `Outcomes.ConfirmOrphansUpload` | internal/service/file_service.go:118-149 | a concrete run of this kind exists under every usable configuration |
| `Races.LateFillRun` | internal/service/file_service.go:176-177 | a reachable interleaving whose cache fill leaves a live entry for a deleted row |
| `Races.StrayPartRun` | internal/service/multipart_service.go:109-131 | a reachable interleaving whose report is saved after an abort and leaves a part row for a deleted file |
| `Races.LateUploadRun` | internal/service/file_service.go:76-116 | a reachable run in which a client uses the URL of a CreateUpload after the file was deleted and leaves an object without a live row |
| `Races.CompletionOvertakesDelete` | internal/service/file_service.go:214-223 | wherever a completion can succeed, a DeleteFile that read the pending row before it and goes on after it leaves the assembled object without a live row |
| `Races.CompletionRace` | internal/service/multipart_service.go:152-201 | such a run from the beginning: a creation, reports of all parts of its file, and a completion that overtakes a delete |
| `Races.BracedDeleteRun` | internal/service/file_service.go:208-224 | a creation and a delete with the id in braces, nothing failing: GetFile still returns the file, without a cache it does not |
| `Races.DisorderIsReachable` | internal/service/file_service.go:76-231 | at concrete inputs under every usable configuration: a stale entry and a stray part row by races, a leftover object by the race of a completion with a delete, and one by a late upload through the URL of a single-mode creation |
| `Service.FileService.CreateUpload` | internal/service/file_service.go:76-116 | outcome and stores are those of the uninterrupted run of this call on the step machine, under any failures, and the invariant is kept |
| `Service.FileService.ConfirmUpload` | internal/service/file_service.go:118-149 | outcome and stores are those of the uninterrupted run of this call on the step machine, under any failures, and the invariant is kept |
| `Service.FileService.GetFile` | internal/service/file_service.go:151-178 | outcome and stores are those of the uninterrupted run of this call on the step machine, under any failures, and the invariant is kept; only the cache can change |
| `Service.FileService.ListFiles` | internal/service/file_service.go:180-185 | an owner that is not valid is an error; otherwise the answer is the page of that owner's files, with as many of them as were asked for in 1..100, else 20 |
| `Service.FileService.GetDownloadUrl` | internal/service/file_service.go:192-206 | outcome and stores are those of the uninterrupted run of this call on the step machine, under any failures, and the invariant is kept, by way of GetFile; only the cache can change |
| `Service.FileService.DeleteFile` | internal/service/file_service.go:208-231 | outcome and stores are those of the uninterrupted run of this call on the step machine, under any failures, and the invariant is kept, by way of GetFile |
| `Service.FileService.CreateMultipartUpload` | internal/service/multipart_service.go:37-84 | outcome and stores are those of the uninterrupted run of this call on the step machine, under any failures, and the invariant is kept, the rollback after a failed insertion included |
| `Service.FileService.GetPartUploadUrl` | internal/service/multipart_service.go:86-107 | the upload, part number and part size handed out, or the error, are those of the run of this call on the step machine; nothing changes |
| `Service.FileService.ReportPartUploaded` | internal/service/multipart_service.go:109-131 | outcome and stores are those of the uninterrupted run of this call on the step machine, under any failures, and the invariant is kept; only part rows can change |
| `Service.FileService.ListUploadParts` | internal/service/multipart_service.go:133-150 | the upload, part size, part count and ordered parts, or the error, are those of the run of this call on the step machine; nothing changes |
| `Service.FileService.CompleteMultipartUpload` | internal/service/multipart_service.go:152-201 | outcome and stores are those of the uninterrupted run of this call on the step machine, under any failures, and the invariant is kept, with the list produced by the part-check loop handed to storage |
| `Service.FileService.AbortMultipartUpload` | internal/service/multipart_service.go:203-222 | outcome and stores are those of the uninterrupted run of this call on the step machine, under any failures, and the invariant is kept |

## Left out

- The adapters to MinIO, Redis, Kafka and Postgres: they appear as maps, sets and a log whose every statement may fail.
- A database statement that took effect although it reported an error: statements either happen or fail.
- Generated protobuf code, the mapping in the gRPC handler, authentication, TLS, rate limiting, metrics, audit and start-up: the owner id is an input of every call.
- Configuration loading: part size, size cap and bucket are constants of a run.
- Clocks and UUID generation: times and ids are inputs. Times are kept at the precision of the database column, so the in-memory time that CreateUpload caches and the stored one are the same value.
- Presigned URLs and expiry times: a URL is represented by what it grants access to, a cache TTL by eviction at any moment. The URL CreateUpload returns beside the record is not part of its outcome; it is for the key of that record.
- The full generality of `fmt.Sscanf`, `uuid.Parse` and the regular-expression engine: page tokens with embedded blanks and page-token UUIDs in spellings other than the 36-character one are rejected by the model.
- The Kafka event's remaining fields: an event carries its kind, file id, owner and object key.
- Several owners' pages in one walk, and a token taken from one owner's walk and used in another's.
- ETag normalisation beyond trimming: it is modelled as the code has it, and no law about repeating it is stated.
