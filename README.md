# vrac upload-token lifecycle, modelled in Dafny

vrac is a small file-drop service. An administrator creates an upload **token** bound to
a URL path. Whoever holds the link can upload files once through a multipart form. The
uploaded files are then listed, downloaded one by one or streamed as a zip archive. A
periodic **sweeper** deletes files and tokens once their retention window has passed.
Blobs live on the local filesystem or in a Garage (S3-compatible) bucket.
Rows live in a `token` table and a `file` table.

This project models the core of that lifecycle and proves properties about it:

- **Ledger** (`ledger.dfy`, module `Ledger`): the two tables as a `LedgerState` value,
  held by the `Db` class.
  - `get_valid_token` and the transactional `create_token` follow the queries of
    `src/db.rs` exactly.
  - The operations the handlers call whose SQL is not shown get the behaviour the
    handlers rely on, stated in their contracts: `initiate_upload`, `create_file`,
    `finalise_file_upload`, `finalise_token_upload`, `delete_files`,
    `get_files_to_delete`, `delete_expired_tokens`, `get_valid_file`, `get_files`, and
    the three-way `GetTokenResult` lookup. A used token whose content has expired
    is no longer in the used state, so it lists and serves nothing.
  - The intended invariant, at most one live token per path at any instant, follows
    from a stronger one the operations keep: at most one undeleted token per path.
    `Db` keeps it as part of its `Valid` predicate, and
    `Ledger.ReachableAtMostOneLive` proves it for every table the operations reach.
- **Blob stores** (`blob_store.dfy`, module `BlobStore`):
  - The local backend works over a `Disk` object, whose state is a map from paths to
    bytes plus the paths that fail: refused, failing to sync or delete, or on a device
    that runs out of space partway through a write.
  - Garage keys and locators are derived as in the source.
  - The `GarageWriteBlob` write handle is a class with its `send_chan` flag and
    whether `send_future` has already finished; polling it again then panics.
  - The Garage object store is a map from locators to bytes.
  - Locators are serialised into an opaque `BackendData` value that round-trips.
- **Upload handler** (`field_store.dfy` and `upload_handler.dfy`, modules `FieldStore`
  and `UploadHandler`): `post_upload_form` with the local filesystem backend.
  - `PostUploadForm` is a method with a `while` loop over the multipart fields.
  - It is proved equal to the function `PostUploadSpec`. That function also yields the
    ordered list of ledger and storage calls made.
  - Lemmas about that function state its properties: `PostUploadRejects`,
    `PostUploadCalls`, `PostUploadFinalisesIff`, `FieldStore.EmptyFieldLeavesNothing`,
    `FieldStore.FilledFieldIsStored` and `FieldStore.FullDeviceFailsField`.
- **Upload pages** (`upload_pages.dfy`, module `UploadPages`): `TplFile::from` and its
  mime prefix, the "expires in" text, the `zip` query flag (`true_if_present`) and the
  page `get_upload_form` chooses.
- **Zip streaming** (`zip_stream.dfy`, module `ZipStream`): the `ZipFiles` reader.
  - The class holds the writer state, the queue of entries and what the zip writer has
    been given so far.
  - Each activation of `poll_read` is driven by the answers its inner futures give.
  - The invariant `Consistent` says that the writer receives every entry whole, in
    queue order.
- **Sweeper** (`cleanup.dfy`, module `Sweeper`): `cleanup` and `delete_file` over the
  ledger and both stores.
- **Token generation** (`token_gen.dfy`, module `TokenGen`): the `"None"` sentinel
  parser, reading the form, `valid_until`, and the `create_token` page.
- **File download** (`file_download.dfy`, module `FileDownload`): the `Content-Type`
  and `Content-Disposition` headers of `get_file` and its backend dispatch. The
  disposition follows the `filename` parameter of section 4.1 of RFC 6266.
- **Errors** (`errors.dfy`, module `Errors`): `AppError`, its HTTP status mapping and
  the `with_context` conversions.
- **Support**: `wrappers.dfy` has `Option` and `Result`. `text.dfy` has decimal
  formatting with zero padding (`{:02}`, `{:04}`), integer and boolean parsing, and
  splitting at a separator.

Time is whole seconds (`Instant`, an `int`). Bytes are the integers 0..255. An HTTP
request, a clock read or a filesystem failure is an input to the model.

Where the intended behaviour and the code disagree, the model follows the code. Where
the code is wrong (see Findings), the members involved take an `asWritten` flag and
model both the code as written and the corrected code:

- A token is meant to be valid while it is not deleted and still inside
  `valid_until`. The query in `src/db.rs` accepts
  `deleted_at IS NULL OR valid_until < now`. `Ledger.GetValidTokenAsCoded` models the
  query, and `Ledger.AsCodedIgnoresExpiry` states what that predicate means.
- The sweeper is meant to delete each file from the store that holds it. The code
  hands every `garage` row to the local store (see Findings). `Sweeper.DeleteFile`,
  `Sweeper.DeleteAll` and `Sweeper.Cleanup` run either dispatch.
- The sweeper is meant to isolate per-file failures, so that one bad file cannot
  block a cycle. The code joins all blob deletes with `try_join_all` and deletes the
  rows only when every one succeeds: a single failing delete leaves every row and
  every expired token in place (`Sweeper.CleanupSpec`, `Sweeper.SweepFailsWith`).
- Local blob paths are derived from the token id, attempt and index so that uploads
  never collide. The Garage key is the client's file name whenever one is
  sent, so file names are injective only for the local backend: two uploads of
  `report.pdf`, under any tokens, share one object, and the second finalised PUT
  replaces the first (`BlobStore.GarageNamedKeysCollide`).

## Model

| member | source | states |
|---|---|---|
| Errors.IntoResponse | src/error.rs:74-90 | status 404 exactly for `NotFound`, with its own HTML body; every other variant is a 500 whose body is the error's debug text |
| Errors.FromMultipartError | src/error.rs:92-99 | a multipart error becomes `UploadError` over an io error of kind Other carrying its debug text, so it is answered with 500 |
| Errors.DbWithContext | src/error.rs:101-119 | `Ok` passes through with its value unchanged; an error becomes `DBError` with the message and the source |
| Errors.BackendWithContext | src/upload.rs:84-106 | `Ok` passes through unchanged; an io error becomes `UploadBackendError` with the context |
| Errors.ContextMessage | src/upload.rs:177-240 | every backend error message ends with the debug-quoted path it is about |
| Errors.FromIo | src/handlers/upload.rs:182-184 | an io error raised by `?` becomes `UploadError` carrying that io error, which the service answers with a 500 and the error's debug text |
| Text.FormatValue | src/upload.rs:182-185 | the zero-padded decimal text of any integer reads back as that integer |
| Text.FormatInjective | src/upload.rs:182-185 | two integers with the same padded text at one width are equal |
| Text.ParseInteger | src/handlers/gen.rs:123-135 | a parsed value lies in the target type's range, and the text starts with a digit or an allowed sign |
| Text.ParseFormatRoundTrip | src/handlers/gen.rs:123-135 | parsing the decimal text of any in-range value gives that value back |
| Text.ParseBool | src/handlers/upload.rs:414-423 | `true` exactly for "true" and `false` exactly for "false" |
| Text.SplitJoined | src/handlers/upload.rs:73-76 | splitting `x + sep + y` at the first separator gives back `x` and `y` when `x` has none |
| Text.SplitRejoins | src/handlers/upload.rs:73-76 | the text before and after the first separator, joined by it, is the original text |
| BlobStore.BackendType | src/upload.rs:173-175 | the local backend is named "local_fs" and Garage "garage", and neither name belongs to the other |
| BlobStore.BlobNameInjective | src/upload.rs:182-185 | distinct (token id, attempt, index) triples give distinct blob names |
| BlobStore.BlobNameRelative | src/upload.rs:182-185 | a blob name is never empty and never absolute, so pushing it keeps it under the base path |
| BlobStore.PushPathInjective | src/upload.rs:181-185 | pushing distinct relative names onto one base path gives distinct paths |
| BlobStore.LocalPathInjective | src/upload.rs:181-185 | one uploader gives distinct triples distinct file paths |
| BlobStore.LocalInitiateSpec | src/upload.rs:177-203 | Ok iff the derived path may be opened; then the handle's path equals the locator's path, the locator carries the uploader's version, an existing file keeps its content (create and write, no truncation), a new one is empty, and no other file changes; on failure `CannotSave` and nothing changes |
| BlobStore.LocalInitiateUpload | vrac-server/src/upload.rs:164-190 | opening the file on the `Disk` changes it and answers as `LocalInitiateSpec` says |
| BlobStore.LocalFinalizeSpec | src/upload.rs:205-211 | Ok(None) iff the sync succeeds, and then the file is durable; a failed sync is `CannotSync` with nothing changed; no file content changes |
| BlobStore.LocalFinalizeUpload | vrac-server/src/upload.rs:192-198 | syncing on the `Disk` answers as `LocalFinalizeSpec` says |
| BlobStore.LocalDeleteSpec | src/upload.rs:213-226 | Ok iff the path is neither denied nor failing, so a missing file counts as deleted; afterwards the path is gone and nothing else is; other failures are `CannotDelete` with nothing changed |
| BlobStore.LocalDeleteBlob | vrac-server/src/upload.rs:200-213 | removing on the `Disk` answers as `LocalDeleteSpec` says |
| BlobStore.LocalDeleteTwice | src/upload.rs:213-226 | deleting the same blob twice succeeds both times, and the second delete changes nothing |
| BlobStore.LocalReadSpec | src/upload.rs:228-240 | Ok iff the file exists and may be opened, with a handle on the locator's path; otherwise `CannotOpen` |
| BlobStore.WriteSpec | src/handlers/upload.rs:181-184 | writing a field into its blob stores the bytes up to the device's capacity over the file's head; it fails with the device's "no space" io error iff the capacity cuts the data short; no other file changes and the file is no longer synced |
| BlobStore.Disk.Write | src/handlers/upload.rs:181-184 | the write on the `Disk` changes it and answers as `WriteSpec` says |
| BlobStore.WritePartial | src/handlers/upload.rs:181-184 | after a write the file starts with the bytes that fitted, and with all of them when the write succeeds |
| BlobStore.LocalReadBlob | vrac-server/src/upload.rs:215-223 | opening on the `Disk` answers as `LocalReadSpec` says and changes nothing |
| BlobStore.DecodeEncode | src/handlers/upload.rs:172-182 | a serialised locator decodes to itself, and never as the other backend's locator |
| BlobStore.GarageKey | src/upload.rs:275-281 | the key is the client's file name when given, otherwise the same `{id}_{attempt:02}_{index:03}` name as the local backend |
| BlobStore.GarageNamedKeysCollide | src/upload.rs:275-295 | two uploads with the same client file name, under any token, attempt or index, get the same locator, so the second finalised PUT replaces what the first stored |
| BlobStore.GarageKeyDistinct | src/upload.rs:275-281 | without client file names, distinct triples get distinct keys |
| BlobStore.GarageWriteBlob.Initiate | src/upload.rs:270-312 | a new write handle holds its channel, its upload future has not finished, the body is still streaming, nothing is sent yet, and the target is the derived locator |
| BlobStore.ChanOutcome | src/upload.rs:389-404 | the retry loop ends on the channel's first answer that is not "full"; if every answer is "full" the write is pending |
| BlobStore.PollWriteResult | src/upload.rs:364-415 | an upstream failure is returned as is; without a channel every write fails; a write that succeeds reports the whole buffer; a pending write still has its channel |
| BlobStore.GarageWriteBlob.PollWrite | src/upload.rs:364-415 | panics iff an earlier poll already saw the upload future finish; otherwise answers as `PollWriteResult`, and the future is finished iff this poll was `Ready` (a `Ready(Ok)` is ignored but finishes it); exactly the buffer is appended on success; an upstream failure takes the channel and aborts the body |
| BlobStore.GarageWriteBlob.PollFlush | src/upload.rs:417-425 | flushing always succeeds, drops the channel, ends a streaming body, sends nothing and does not poll the upload future |
| BlobStore.GarageWriteBlob.PollShutdown | src/upload.rs:427-432 | panics iff an earlier poll already saw the upload future finish; otherwise reports the future's answer, a `Ready` answer leaving it finished, and changes neither the channel nor the body |
| BlobStore.ObjectStore.FinalizeUpload | src/upload.rs:314-321 | panics iff a write already saw the PUT finish, with the store unchanged; otherwise Ok(None) iff the upstream request succeeds, and then the object holds exactly the bytes sent; on failure a 500 error with the store unchanged |
| BlobStore.GarageDeleteSpec | src/upload.rs:323-330 | Ok iff the store is reachable, and then exactly that object is removed; on failure `S3DeleteError` with the store unchanged |
| BlobStore.ObjectStore.DeleteBlob | src/upload.rs:323-330 | deleting on the object store answers as `GarageDeleteSpec` says |
| BlobStore.GarageDeleteTwice | src/upload.rs:323-330 | deleting one object twice succeeds both times, and the second delete changes nothing |
| BlobStore.GarageReadSpec | src/upload.rs:332-345 | Ok iff the store is reachable and holds the object, with exactly its bytes; otherwise `S3ReadError` |
| BlobStore.ObjectStore.ReadBlob | src/upload.rs:332-345 | reading from the object store answers as `GarageReadSpec` says |
| Ledger.GetValidTokenAsCoded | src/db.rs:113-130 | the result is some row whose path matches and which satisfies `deleted_at IS NULL OR valid_until < now`; None iff no row does |
| Ledger.Db.GetValidToken | src/db.rs:73-76 | a token is found iff the coded query finds one, and it is always classified `Fresh` |
| Ledger.AsCodedIgnoresExpiry | src/db.rs:119-122 | an undeleted token still matches after its `valid_until`; a deleted token matches once `valid_until` has passed and not before |
| Ledger.CreateTokenSpec | src/db.rs:78-110 | `AlreadyExist` iff the coded query finds a token for the path, and then the tables are unchanged; otherwise exactly one row is appended and returned; a table with at most one undeleted token per path keeps that property, because the coded filter refuses whenever an undeleted token has the path |
| Ledger.InsertedToken | src/db.rs:94-105 | the new row carries the request's path, size limit, `valid_until` and content retention, a fresh id, no `deleted_at`, not used and attempt 0 |
| Ledger.Db.CreateToken | src/db.rs:78-110 | the table update and answer are those of `CreateTokenSpec` |
| Ledger.CreateTwiceRefused | src/db.rs:86-105 | after a successful creation for a path, a second creation for that path, at any time, is refused |
| Ledger.CreateTokenOtherPaths | src/db.rs:94-105 | a creation does not change what the query answers for any other path |
| Ledger.QueryIgnoresOtherPaths | src/db.rs:113-130 | appending a row for another path does not change the query's answer |
| Ledger.GetToken | src/handlers/upload.rs:95-118 | no token iff no live token has the path or the first live one is used with its content expired; a fresh token is live and never used; a used token is not deleted and its content has not expired |
| Ledger.FirstLiveIsTheUndeleted | src/handlers/upload.rs:95-118 | in a table with one undeleted token per path, the live token the lookup finds for an undeleted token's path is that token while it is live, and there is none otherwise |
| Ledger.UsedTokenLifetime | src/handlers/upload.rs:95-118 | in a table with one undeleted token per path, an undeleted used token is reported as used until its content expires and as no token from then on, whatever its `valid_until` |
| Ledger.InitiateUploadSpec | src/handlers/upload.rs:144 | Ok iff the token's row still exists and is uploadable, and then exactly that row's attempt counter goes up by one and the new row is returned; otherwise `NoTokenFound` with nothing changed; one undeleted token per path is kept |
| Ledger.Db.InitiateUpload | src/handlers/upload.rs:144 | the update and answer are those of `InitiateUploadSpec` |
| Ledger.CreateFileSpec | src/handlers/upload.rs:170-182 | one uncommitted row is appended with a fresh id, the session's token id and attempt, the backend's type and locator, the mime type and the name |
| Ledger.Db.CreateFile | src/handlers/upload.rs:170-182 | the update and answer are those of `CreateFileSpec` |
| Ledger.FinaliseFileSpec | src/handlers/upload.rs:191-200 | only the rows with the file's id are completed, with the updated locator when one is given; nothing else changes |
| Ledger.Db.FinaliseFileUpload | src/handlers/upload.rs:191-200 | the update is that of `FinaliseFileSpec` |
| Ledger.ContentExpiry | src/handlers/upload.rs:205-213 | a content deadline exists iff the token has a retention, and then it is that many hours after now |
| Ledger.FinaliseTokenSpec | src/handlers/upload.rs:205-213 | only the row with the session's id and attempt is marked used now and given its content deadline; one undeleted token per path is kept |
| Ledger.Db.FinaliseTokenUpload | src/handlers/upload.rs:205-213 | the update is that of `FinaliseTokenSpec` |
| Ledger.StaleSessionFinalisesNothing | src/handlers/upload.rs:205-213 | a session whose attempt was superseded finalises nothing |
| Ledger.DeleteFilesSpec | src/cleanup.rs:34 | exactly the file rows with a listed id are removed, with order and tokens kept |
| Ledger.Db.DeleteFiles | src/cleanup.rs:34 | the update is that of `DeleteFilesSpec` |
| Ledger.DeleteNewestRow | src/handlers/upload.rs:187-190 | deleting the row just created restores the file table |
| Ledger.FilesToDelete | src/cleanup.rs:14 | exactly the files whose token's content expired, whose attempt was superseded, or whose token was abandoned unused |
| Ledger.Db.GetFilesToDelete | src/cleanup.rs:14 | the answer is `FilesToDelete` and nothing changes |
| Ledger.DeleteExpiredTokensSpec | src/cleanup.rs:35 | exactly the expired tokens are removed and the others keep their order; each removed token's id and path is reported; one undeleted token per path is kept |
| Ledger.FilterKeepsOneUndeleted | src/cleanup.rs:35 | removing any rows from a token table with one undeleted token per path keeps that property |
| Ledger.Db.DeleteExpiredTokens | src/cleanup.rs:35 | the update and answer are those of `DeleteExpiredTokensSpec` |
| Ledger.GetValidFile | src/handlers/file.rs:25-28 | a completed file with that id whose token matches the path, is used, live and not content-expired; None iff there is none |
| Ledger.GetValidFileIff | src/handlers/file.rs:25-28 | a file is served iff it is completed and its token is used, not deleted, on that path and not content-expired |
| Ledger.GetFiles | src/handlers/upload.rs:288 | exactly the completed files of that token's attempt |
| Ledger.OneLivePerPath | src/db.rs:78-110 | a token table with one undeleted token per path has, at any instant, at most one live token per path |
| Ledger.Apply | src/db.rs:78-110 | each ledger operation (create token, initiate upload, create file, finalise file, finalise token, delete files, delete expired tokens) keeps at most one undeleted token per path |
| Ledger.ReplayKeepsOneUndeleted | src/db.rs:78-110 | any sequence of ledger operations keeps at most one undeleted token per path |
| Ledger.ReachableAtMostOneLive | src/db.rs:78-110 | the intended invariant: in every table reachable from empty tables, each path has at most one live token at any instant |
| FieldStore.FieldInit | src/handlers/upload.rs:159-166 | each `InitFile` carries the session's token id and attempt counter, the field's index, mime type and file name |
| FieldStore.CopyError | src/handlers/upload.rs:181-184 | a failing field stream is an io error of kind Other |
| FieldStore.EncodeUpdated | src/handlers/upload.rs:193-199 | an updated locator, when there is one, is serialised so that it decodes back to itself |
| FieldStore.FieldTrace | src/handlers/upload.rs:168-203 | a field makes five calls: it opens the blob first and copies exactly its bytes third |
| FieldStore.FieldStepTrace | src/handlers/upload.rs:168-203 | the calls made for one field are a prefix of its trace: open, create row, copy, then delete blob and row (no bytes) or sync and finalise (some bytes); the field succeeds iff the whole trace ran, reporting its byte count |
| FieldStore.StoreFieldTrace | src/handlers/upload.rs:170-203 | after the blob is opened, the calls are a prefix of the rest of the trace, complete iff the field succeeds |
| FieldStore.CloseFieldTrace | src/handlers/upload.rs:187-203 | closing a field deletes blob then row when nothing was copied, else syncs then finalises, stopping at the first failure |
| FieldStore.EmptyFieldLeavesNothing | src/handlers/upload.rs:187-190 | a field that copied no bytes leaves no row and no file behind, and every other file is as before |
| FieldStore.FilledFieldIsStored | src/handlers/upload.rs:191-200 | a field with bytes leaves one new completed row for the session's attempt, with its locator, and a synced file starting with its bytes |
| FieldStore.FieldStepSummary | src/handlers/upload.rs:168-184 | each field opens exactly one blob, for its own `InitFile`, and on success the bytes copied are its result |
| FieldStore.UploadField | src/handlers/upload.rs:149-203 | one iteration of the loop on `Db` and `Disk` produces the world, result and calls of the step function |
| FieldStore.UploadOpenedField | src/handlers/upload.rs:170-203 | the part after opening the blob produces what `StoreField` describes: the row is created and the bytes written; a failed blob write ends the field with `UploadError` carrying that io error, otherwise a failed stream ends it with `CopyError`, otherwise the blob is closed |
| FieldStore.FullDeviceFailsField | src/handlers/upload.rs:168-184 | a field whose bytes do not fit on the blob's device fails with `UploadError` over the write's io error, leaves its row uncommitted, and leaves exactly the bytes that fitted in an unsynced blob |
| FieldStore.CloseCopiedField | src/handlers/upload.rs:187-203 | the part after the copy produces what `CloseField` describes |
| UploadHandler.Inits | src/handlers/upload.rs:149-166 | the fields get the indices 1, 2, … in stream order, each with the session's `InitFile` |
| UploadHandler.FieldLoopOpens | src/handlers/upload.rs:146-166 | the blobs opened follow the field order with increasing indices, and on success there is one per field |
| UploadHandler.FieldLoopCopied | src/handlers/upload.rs:146-185 | on success the byte total is the sum of the bytes copied per field |
| UploadHandler.UploadFields | src/handlers/upload.rs:146-203 | the `while` loop over the fields produces the world, result and calls of `FieldLoop` |
| UploadHandler.PostUploadForm | src/handlers/upload.rs:121-219 | the handler on `Db` and `Disk` produces the world, result and calls of `PostUploadSpec` |
| UploadHandler.PostUploadRejects | src/handlers/upload.rs:134-143 | a token that is not fresh gives the not-found page and no call at all |
| UploadHandler.PostUploadCalls | src/handlers/upload.rs:144-166 | `initiate_upload` is the first call and is never repeated; if it fails nothing else happens; otherwise every blob is opened for the session's new attempt with indices 1..n, all of them on success |
| UploadHandler.PostUploadFinalisesIff | src/handlers/upload.rs:205-213 | the token is finalised iff the upload succeeds with more than zero bytes in total, and then as the last call |
| UploadPages.MimePrefix | src/handlers/upload.rs:73-76 | a prefix exists iff the mime type contains '/', and it is the text before the first '/' |
| UploadPages.MimePrefixOfJoin | src/handlers/upload.rs:73-76 | for `head/tail` with no '/' in `head`, the prefix is `head` |
| UploadPages.TplFileFrom | src/handlers/upload.rs:68-79 | the listing entry keeps the file's id, mime type and name; it has a prefix iff the mime type contains '/', and the prefix is the text before the first '/' |
| UploadPages.TruncDiv | src/handlers/upload.rs:267-272 | whole-unit division rounds toward zero for both signs |
| UploadPages.Breakdown | src/handlers/upload.rs:267-272 | a non-negative duration splits into whole days, hours below 24 and minutes below 60, leaving less than a minute |
| UploadPages.BreakdownUnique | src/handlers/upload.rs:267-272 | that split is the only one with those bounds |
| UploadPages.Part | src/handlers/upload.rs:273-281 | a part is written iff its count is positive |
| UploadPages.ExpiresInParts | src/handlers/upload.rs:263-284 | the text is the days part, then the hours part, then the minutes part |
| UploadPages.ExpiresInEmpty | src/handlers/upload.rs:263-284 | the text is empty iff less than a minute is left |
| UploadPages.TrueIfPresent | vrac-server/src/handlers/upload.rs:572-581 | an absent or empty value is true; any other value is parsed as a bool, and anything else is an error |
| UploadPages.ZipFlag | src/handlers/upload.rs:408-412 | a missing `zip` key is false; a present one goes through `true_if_present` |
| UploadPages.FormPageStatus | src/handlers/upload.rs:95-104 | 404 exactly for the not-found page |
| UploadPages.GetUploadFormPage | src/handlers/upload.rs:95-118 | no token gives not-found, a fresh one the form, a used one the zip or the list as `zip` asks, always for that token |
| ZipStream.Window | vrac-server/src/handlers/upload.rs:458-466 | a filled buffer is a prefix of the entry's remaining bytes, empty only when none remain |
| ZipStream.ZipFiles.constructor | vrac-server/src/handlers/upload.rs:352-361 | a new reader is in Archive with every entry queued in the given order and nothing written |
| ZipStream.NewConsistent | vrac-server/src/handlers/upload.rs:352-361 | a new reader satisfies the invariant |
| ZipStream.ZipFiles.Step | vrac-server/src/handlers/upload.rs:374-526 | one activation of `poll_read` changes the reader and answers as `Next` says |
| ZipStream.ZipFiles.CopyStep | vrac-server/src/handlers/upload.rs:454-493 | the CopyEntry activation changes the reader and answers as `Copy` says |
| ZipStream.ZipFiles.PollRead | vrac-server/src/handlers/upload.rs:374-526 | a whole `poll_read` call, recursion included, produces what `Drive` says and keeps the invariant |
| ZipStream.Transitions | vrac-server/src/handlers/upload.rs:406-523 | an activation leaves the reader as it was, fails into Dummy, or makes one of the legal moves |
| ZipStream.MovesConsistent | vrac-server/src/handlers/upload.rs:411-518 | every legal move keeps the invariant |
| ZipStream.NextConsistent | vrac-server/src/handlers/upload.rs:374-526 | every activation keeps the invariant |
| ZipStream.DriveConsistent | vrac-server/src/handlers/upload.rs:374-526 | every sequence of activations keeps the invariant |
| ZipStream.ArchiveConsistent | vrac-server/src/handlers/upload.rs:411-437 | in Archive the front entry is popped into OpeningEntry, or with an empty queue the archive is closed, and the invariant holds |
| ZipStream.OpenEntryConsistent | vrac-server/src/handlers/upload.rs:439-453 | opening an entry writes its header and starts copying all of its bytes, and the invariant holds |
| ZipStream.CopyMoreConsistent | vrac-server/src/handlers/upload.rs:479-492 | writing the next bytes of the entry keeps the invariant |
| ZipStream.CloseEntryConsistent | vrac-server/src/handlers/upload.rs:466-477 | an entry whose bytes are exhausted moves to ClosingEntry, and the invariant holds |
| ZipStream.EndEntryConsistent | vrac-server/src/handlers/upload.rs:494-505 | closing an entry completes it and returns to Archive, and the invariant holds |
| ZipStream.DirectoryConsistent | vrac-server/src/handlers/upload.rs:506-518 | closing the archive writes the directory and moves to Flushing, and the invariant holds |
| ZipStream.QueueOrder | vrac-server/src/handlers/upload.rs:411-437 | entries leave the queue only from the front, one per activation, and ClosingArchive is entered only from Archive with an empty queue |
| ZipStream.CopyEntryStep | vrac-server/src/handlers/upload.rs:466-492 | in CopyEntry an empty buffer means the entry is exhausted and closes it; a write of zero bytes is a WriteZero error; otherwise exactly the written bytes are consumed and given to the writer |
| ZipStream.EofOnlyWhenFlushing | vrac-server/src/handlers/upload.rs:381-394 | a read returns 0 iff the buffer is at its end and the state is Flushing, and it changes nothing |
| ZipStream.NoDummyUnlessError | vrac-server/src/handlers/upload.rs:406-523 | an activation that does not return an error neither leaves Dummy behind nor panics |
| ZipStream.FlushingIsComplete | vrac-server/src/handlers/upload.rs:506-522 | once Flushing, the queue is empty and the writer has been given every entry, whole and in order, then the directory |
| ZipStream.DoneHeaders | vrac-server/src/handlers/upload.rs:411-453 | the entry headers written are the entries' names in queue order, each once |
| Sweeper.DeleteFileSpec | src/cleanup.rs:44-64 | an unknown backend is a success that changes nothing; a local row is deleted iff it decodes and its path may be removed; a garage row is deleted from the object store iff it decodes and the store is reachable; a failure changes nothing |
| Sweeper.DeleteFile | src/cleanup.rs:44-64 | for either dispatch, as written (both known types to the local store, the object store untouched) or corrected, the delete on `Disk` and `ObjectStore` does what `DeleteFileSpec` says |
| Sweeper.CleanupSpec | src/cleanup.rs:12-42 | an empty due list changes nothing; a failed blob delete changes no row; on success exactly the due files' rows and the expired tokens are removed, with one `now`, and every due blob is gone |
| Sweeper.Cleanup | src/cleanup.rs:12-42 | for either dispatch, the sweep on `Db`, `Disk` and `ObjectStore` does what `CleanupSpec` says |
| Sweeper.DeleteAll | src/cleanup.rs:20-25 | for either dispatch, the `while` loop over the due files makes one delete each, in order, and reports the first error, as `Sweep` says |
| Sweeper.SweepClears | src/cleanup.rs:20-25 | the blob deletes only remove blobs, and when none fails every listed blob is gone |
| Sweeper.SweepFailsWith | src/cleanup.rs:20-25 | one row whose delete always fails makes the whole join fail |
| Sweeper.GarageRowBlocksSweep | src/cleanup.rs:53-58 | as written, a due garage row makes every sweep fail with no row deleted, so the row stays due at every later time |
| Sweeper.CleanupSucceeds | src/cleanup.rs:44-64 | with the corrected dispatch and a reachable store, every due row whose blob may be deleted is swept |
| Sweeper.ShrinksTrans | src/cleanup.rs:20-25 | successive blob deletes only remove blobs |
| TokenGen.FromOptionStr | src/handlers/gen.rs:123-135 | a present value is Ok iff it parses, with that value; otherwise the fixed parse error |
| TokenGen.DeserializeMaybe | src/handlers/gen.rs:114-121 | the text becomes `Just` iff it parses as an integer, and `Nothing` keeps the text otherwise |
| TokenGen.DeserializeSentinel | src/handlers/gen.rs:83-107 | "None" and only "None" gives no value; a number gives that number; anything else is an error naming the text |
| TokenGen.SentinelRoundTrip | src/handlers/gen.rs:83-107 | any optional 64-bit value written as the form writes it reads back as itself |
| TokenGen.EmptyIsRejected | src/handlers/gen.rs:96-100 | the empty string is an error |
| TokenGen.ParseGenTokenForm | src/handlers/gen.rs:11-21 | a form is accepted iff all four fields are present, both sentinels parse and the validity parses as `u64`, and then it carries exactly those values |
| TokenGen.ValidUntil | src/handlers/gen.rs:54-55 | `valid_until` is exactly `hours * 3600` seconds after now |
| TokenGen.CreatedTokenUploadableUntil | src/handlers/gen.rs:54-72 | a token created from the form has the form's path, is unused, and `initiate_upload` on it succeeds exactly before now plus the hours asked for |
| TokenGen.CreateTokenPageSpec | src/handlers/gen.rs:36-79 | a rejected form shows an error and changes nothing; otherwise "a valid token already exist for this path" iff the query finds one, with nothing changed, else "token created" with the token appended |
| TokenGen.CreateTokenHandler | src/handlers/gen.rs:36-79 | the handler on `Db` does what `CreateTokenPageSpec` says |
| TokenGen.SecondSubmissionRefused | src/handlers/gen.rs:63-72 | submitting the same accepted form again is refused and changes nothing |
| FileDownload.ContentType | src/handlers/file.rs:31-40 | the stored mime type when present and a valid header value, else "application/octet-stream" |
| FileDownload.DefaultNameInjective | src/handlers/file.rs:42-45 | two unnamed files get the same default name only when token id and file id are equal |
| FileDownload.DefaultNameSafe | src/handlers/file.rs:42-45 | a default name is always a valid header value |
| FileDownload.DispositionType | src/handlers/file.rs:46-50 | "attachment" iff `dl` is true, "inline" when it is false or absent |
| FileDownload.QuoteRoundTrip | src/handlers/file.rs:52-57 | reading a quoted-string back gives the name and the rest of the header |
| FileDownload.DispositionRoundTrip | src/handlers/file.rs:52-57 | the `filename` parameter of the corrected header reads back as the file name |
| FileDownload.QuotePlain | src/handlers/file.rs:52-57 | for names without quote or backslash, the corrected header equals the one written |
| FileDownload.UnescapedQuoteLosesName | src/handlers/file.rs:52-57 | as written, a name containing a double quote cannot be read back from the header |
| FileDownload.PlainNameReadsBack | src/handlers/file.rs:52-57 | as written, a name without quote or backslash still reads back from the header |
| FileDownload.QuoteSafe | src/handlers/file.rs:52-57 | quoting keeps a name a valid header value, and never makes one valid |
| FileDownload.DispositionSafe | src/handlers/file.rs:52-57 | the header is a valid value iff the file name is |
| FileDownload.DispositionAsWrittenSafe | src/handlers/file.rs:52-57 | the verbatim header is a valid value iff the file name is, so its `unwrap` panics exactly for invalid names |
| FileDownload.OpenBlob | src/handlers/file.rs:59-74 | "local_fs" reads from the local store, "garage" from the object store, any other type is `UnknownStorageBackend`; Ok iff the locator decodes and the blob can be read |
| FileDownload.GetFile | src/handlers/file.rs:20-82 | not found iff there is no valid file; the handler panics iff the name is not a valid header value; otherwise it answers as the dispatch does, with the computed type; as written the disposition is the verbatim header, whose name reads back when it has no quote or backslash; corrected, the escaped header, whose name always reads back |
| FileDownload.Status | src/error.rs:74-90 | the answer's status is 404 exactly for the not-found page and `NotFound` errors |
| FileDownload.MissingBlobIsServerError | src/handlers/file.rs:59-74 | when the blob of a valid file cannot be opened (unknown backend, bad locator, unreadable blob), the answer is an error with status 500, never a 404 |

## Left out

- HTTP routing, templating, flash messages and authentication are not modelled. A page is a datatype value; its HTML text is not modelled.
- URL percent-decoding of the token path (section 2.1 of RFC 3986) and multipart framing (RFC 7578) are not modelled. The handler receives the decoded path and the fields in order, plus the framing error that ends the stream, if any.
- Database failures (`sqlx` errors) are not modelled. The ledger operations always answer. `Errors.DbWithContext` states the conversion of such an error on its own.
- The SQL of the ledger operations that are only called is not shown. `GetToken`, `InitiateUploadSpec`, `CreateFileSpec`, `FinaliseFileSpec`, `FinaliseTokenSpec`, `DeleteFilesSpec`, `FilesToDelete`, `DeleteExpiredTokensSpec`, `GetValidFile` and `GetFiles` have the behaviour the handlers and the sweeper rely on, which the Ledger item above and each contract state.
- serde_json is not modelled. A locator is an opaque `BackendData` value that decodes to what was encoded. Text that no backend can decode is the `Unparsable` case.
- Async execution is not modelled. A pending future, a channel answer or an upstream failure is an input. Waker registration and backpressure are not modelled.
- Polling a finished future again panics. The model shows this for `send_future` of the Garage write handle, which `poll_write` may see finish and `poll_shutdown` then polls again. It does not show it for `ZipStream`: after the closing future of `ClosingArchive` returns an error, the state keeps that finished future and a later `poll_read` would poll it again; the model takes a fresh answer instead.
- `LocalFsUploader::new`, `GarageUploader::new` and the trait's default `finalize_upload`, which the local backend overrides, are not modelled. An uploader is a parameter, and the S3 client and its endpoint configuration are outside the model.
- An object that a PUT stores after `poll_write` saw it finish early is not modelled; only `BlobStore.ObjectStore.FinalizeUpload` changes the object store.
- Sweeper.Cleanup, Sweeper.DeleteAll: `try_join_all` drops the other deletes after the first failure. The model attempts every delete in list order and reports the first error. So, after a failure, the model may have deleted more blobs than the service does. Either way, no row is deleted.
- UploadHandler.PostUploadForm: modelled with the local filesystem backend only, which is the one `post_upload_form` uses. A field's bytes are written in one piece, so the number of `poll_write` calls `copy_buf` makes is not modelled.
- ZipStream.ZipFiles.PollRead: a `poll_read` call is given a finite list of answers for its activations. When the list runs out before the call returns, the result is `Again`. The zip byte format, Deflate compression and the async_zip writer are not modelled: the writer's input is a list of items (header, data byte, entry end, directory). A writer that reports more bytes written than it was given is clamped to the buffer.
- The zip and listing pages of `get_files_zip` and `get_files_html` are not modelled beyond `TplFile`, the "expires in" text and the `zip` flag. Their streaming from S3 is left out, and so are the hard-coded test files of the second snapshot.
- TokenGen.ValidUntil: does not model `u64` overflow of `hours * 3600` or the panic of `OffsetDateTime` outside its range.
- TokenGen.CreateTokenPageSpec: uses one `now` for both clock reads in `create_token`. The form rejection text stands in for the extractor's debug rendering, and the order in which the extractor reports several errors is not modelled.
- UploadPages.ExpiresInParts: time is whole seconds, so sub-second remainders are not modelled. The `valid_for` rounding through `as_seconds_f64` and `humanize_size` use floating point and are left out.
- UploadPages.ZipFlag: a `zip` value that is not a bool is an error; the query extractor then rejects the request. That rejection is not modelled further.
- Errors.ContextMessage: `{:?}` of a path is the path between double quotes; escaping of special characters inside it is not modelled.
- FileDownload.ContentType: "valid header value" is the character check of `HeaderValue`: tab and every character from space upward except DEL, non-ASCII characters included. The model does not parse mime types more finely than that.
- The `dl` query parameter is an `Option<bool>` input. A value that fails to parse is rejected by the extractor before `get_file` runs, and is not modelled.
- The command-line binaries, the five-minute sweeper timer, `fill_metadata`, the experimental `split` and `test` binaries, and the admin tool are not part of this model.

## Findings

| source | as written | input that shows it | evidently intended | confidence | as-written member | corrected member |
|---|---|---|---|---|---|---|
| src/cleanup.rs:53-58 | the `garage` branch of `delete_file` decodes `backend_data` as a local locator and hands it to the local store | one due file row with `backend_type` "garage" and a Garage locator | delete the object from the Garage store | high; not executed | Sweeper.GarageRowBlocksSweep | Sweeper.CleanupSucceeds |
| src/handlers/file.rs:52-57 | the file name is placed between double quotes without escaping | a stored file name `a"b` | escape `"` and `\` inside the quoted-string (section 4.1 of RFC 6266) | high; not executed | FileDownload.UnescapedQuoteLosesName | FileDownload.DispositionRoundTrip |

With the first finding as written, every sweep that meets a due garage row fails
before any row is deleted. The row stays due at every later time, so from then on no
file row and no expired token is ever deleted. `Sweeper.CleanupSpec`,
`Sweeper.Cleanup`, `Sweeper.DeleteAll` and `Sweeper.DeleteFile` take an `asWritten`
flag, so both versions are modelled: the specification functions state them and the methods compute them.

With the second finding as written, the header value `inline; filename="a"b"` ends the
quoted-string after `a`. The client then sees the name `a` or rejects the header.
`FileDownload.GetFile` takes an `asWritten` flag and sends either form.
`FileDownload.QuotePlain` and `FileDownload.PlainNameReadsBack` show that the two
forms agree, and read back, for every name without a quote or a backslash.
