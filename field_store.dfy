/**
 * Storing one field of an upload with the local filesystem backend: open the blob,
 * record an uncommitted ledger row, copy the bytes, then either delete blob and row
 * (nothing arrived) or sync the blob and complete the row. `FieldStep` describes
 * the step as a function of the ledger and the filesystem; `UploadField` performs
 * it on the `Db` and `Disk` objects and is proved to agree with it.
 */
module FieldStore {
  import opened Wrappers
  import opened Errors
  import opened BlobStore
  import opened Ledger

  /** One multipart field: its content type, the client's file name, its bytes, and the error its stream ends with, if any. */
  datatype Field = Field(mimeType: Option<string>, fileName: Option<string>, bytes: seq<Byte>, failure: Option<string>)

  /** A call the handler makes to the ledger or to the storage backend; field indices start at 1. */
  datatype Effect =
    | InitiateUpload(tokenId: int)
    | OpenBlob(index: nat, init: InitFile)
    | CreateRow(index: nat, fileId: int)
    | CopyBytes(index: nat, count: nat)
    | DeleteBlob(index: nat)
    | DeleteRow(index: nat, fileId: int)
    | SyncBlob(index: nat)
    | FinaliseFile(index: nat, fileId: int)
    | FinaliseToken(tokenId: int, attempt: int)

  datatype World = World(ledger: LedgerState, fs: FsState)

  /** The outcome of running part of the handler: the new world, the result, and the calls made, in order. */
  datatype Run<T> = Run(world: World, result: Result<T, AppError>, effects: seq<Effect>)

  /** The `InitFile` for the field at `index`: the session's token id, path and attempt counter, the field's own metadata. */
  function FieldInit(session: Token, f: Field, index: nat): (init: InitFile)
    ensures init.tokenId == session.id && init.attemptCounter == session.attemptCounter && init.fileIndex == index
    ensures init.mimeType == f.mimeType && init.fileName == f.fileName
  {
    InitFile(session.id, session.path, index, session.attemptCounter, f.mimeType, f.fileName)
  }

  /** The error `copy_buf` reports when a field's stream fails: an io error of kind Other. */
  function CopyError(debugText: string): (e: AppError)
    ensures e.UploadError? && e.io.kind == Other
  {
    UploadError(IoError(Other, "oops " + debugText))
  }

  /**
   * One iteration of the field loop: open the blob, record an uncommitted row, copy the
   * bytes; then either delete blob and row (nothing was copied) or sync the blob and
   * complete the row. Returns the number of bytes copied.
   */
  function FieldStep(w: World, u: LocalFsUploader, session: Token, f: Field, index: nat, now: Instant): (run: Run<nat>)
  {
    var init := FieldInit(session, f, index);
    var (fs1, started) := LocalInitiateSpec(w.fs, u, init);
    if started.Err? then Run(World(w.ledger, fs1), Err(started.error), [OpenBlob(index, init)])
    else Prepend([OpenBlob(index, init)], StoreField(World(w.ledger, fs1), session, f, index, started.value.0, started.value.1, now))
  }

  /**
   * The field loop after its blob is open: the uncommitted row, the copy, and what
   * follows it. The copy fails when writing the blob fails, which happens before the
   * field's stream reaches its end, or else when the stream itself fails.
   */
  function StoreField(w: World, session: Token, f: Field, index: nat, blob: LocalFsBlob, data: LocalFsData, now: Instant): (run: Run<nat>)
  {
    var (ls1, row) := CreateFileSpec(w.ledger, session, LocalFsType, EncodeLocal(data), f.mimeType, f.fileName, now);
    var (fs2, wrote) := WriteSpec(w.fs, blob.path, f.bytes);
    var copied := [CreateRow(index, row.id), CopyBytes(index, |f.bytes|)];
    if wrote.Err? then Run(World(ls1, fs2), Err(FromIo(wrote.error)), copied)
    else if f.failure.Some? then Run(World(ls1, fs2), Err(CopyError(f.failure.value)), copied)
    else Prepend(copied, CloseField(World(ls1, fs2), row, index, blob, data, |f.bytes|, now))
  }

  /** The serialised form of the locator a backend hands back when finalising, if any. */
  function EncodeUpdated(updated: Option<LocalFsData>): (r: Option<BackendData>)
    ensures r.Some? <==> updated.Some?
    ensures r.Some? ==> DecodeLocal(r.value) == Ok(updated.value)
  {
    match updated
    case None => None
    case Some(d) => Some(EncodeLocal(d))
  }

  /** The field loop after a complete copy of `count` bytes. */
  function CloseField(w: World, row: DbFile, index: nat, blob: LocalFsBlob, data: LocalFsData, count: nat, now: Instant): (run: Run<nat>)
  {
    if count == 0 then
      var (fs1, deleted) := LocalDeleteSpec(w.fs, data);
      if deleted.Err? then Run(World(w.ledger, fs1), Err(deleted.error), [DeleteBlob(index)])
      else Run(World(DeleteFilesSpec(w.ledger, [row.id]), fs1), Ok(0), [DeleteBlob(index), DeleteRow(index, row.id)])
    else
      var (fs1, finalized) := LocalFinalizeSpec(w.fs, blob);
      if finalized.Err? then Run(World(w.ledger, fs1), Err(finalized.error), [SyncBlob(index)])
      else
        Run(World(FinaliseFileSpec(w.ledger, row, EncodeUpdated(finalized.value), now), fs1), Ok(count),
            [SyncBlob(index), FinaliseFile(index, row.id)])
  }

  /** How one field is stored: from the world, the field and its index to the outcome. */
  type FieldStepFn = (World, Field, nat) -> Run<nat>

  /** The field step of `post_upload_form` for a given session. */
  function StepOf(u: LocalFsUploader, session: Token, now: Instant): FieldStepFn
  {
    (w: World, f: Field, index: nat) => FieldStep(w, u, session, f, index, now)
  }

  /** `step` stores a field as `FieldStep` does for this session. */
  ghost predicate StepFits(step: FieldStepFn, u: LocalFsUploader, session: Token, now: Instant)
  {
    forall w, f, index {:trigger FieldStep(w, u, session, f, index, now)} :: step(w, f, index) == FieldStep(w, u, session, f, index, now)
  }

  /** `effects` followed by what `run` did. */
  function Prepend<T>(effects: seq<Effect>, run: Run<T>): Run<T>
  {
    Run(run.world, run.result, effects + run.effects)
  }

  /** The body of the field loop, on the database and the disk. */
  method UploadField(db: Db, disk: Disk, u: LocalFsUploader, session: Token, f: Field, index: nat, now: Instant, ghost step: FieldStepFn)
    returns (r: Result<nat, AppError>, ghost effects: seq<Effect>)
    requires db.Valid()
    requires StepFits(step, u, session, now)
    modifies db, disk
    ensures db.Valid()
    ensures Run(World(db.State(), disk.State()), r, effects) == step(World(old(db.State()), old(disk.State())), f, index)
  {
    ghost var spec := FieldStep(World(db.State(), disk.State()), u, session, f, index, now);
    var init := FieldInit(session, f, index);
    var started := LocalInitiateUpload(u, disk, init);
    if started.Err? {
      return Err(started.error), [OpenBlob(index, init)];
    }
    ghost var rest;
    r, rest := UploadOpenedField(db, disk, session, f, index, started.value.0, started.value.1, now);
    effects := [OpenBlob(index, init)] + rest;
  }

  method UploadOpenedField(db: Db, disk: Disk, session: Token, f: Field, index: nat, blob: LocalFsBlob, data: LocalFsData, now: Instant)
    returns (r: Result<nat, AppError>, ghost effects: seq<Effect>)
    requires db.Valid()
    modifies db, disk
    ensures db.Valid()
    ensures var run := StoreField(World(old(db.State()), old(disk.State())), session, f, index, blob, data, now);
            r == run.result && effects == run.effects && db.State() == run.world.ledger && disk.State() == run.world.fs
  {
    var row := db.CreateFile(session, LocalFsType, EncodeLocal(data), f.mimeType, f.fileName, now);
    var wrote := disk.Write(blob.path, f.bytes);
    effects := [CreateRow(index, row.id), CopyBytes(index, |f.bytes|)];
    if wrote.Err? {
      r := Err(FromIo(wrote.error));
      return;
    }
    if f.failure.Some? {
      r := Err(CopyError(f.failure.value));
      return;
    }
    ghost var rest;
    r, rest := CloseCopiedField(db, disk, row, index, blob, data, |f.bytes|, now);
    effects := effects + rest;
  }

  method CloseCopiedField(db: Db, disk: Disk, row: DbFile, index: nat, blob: LocalFsBlob, data: LocalFsData, count: nat, now: Instant)
    returns (r: Result<nat, AppError>, ghost effects: seq<Effect>)
    requires db.Valid()
    modifies db, disk
    ensures db.Valid()
    ensures var run := CloseField(World(old(db.State()), old(disk.State())), row, index, blob, data, count, now);
            r == run.result && effects == run.effects && db.State() == run.world.ledger && disk.State() == run.world.fs
  {
    if count == 0 {
      var deleted := LocalDeleteBlob(disk, data);
      effects := [DeleteBlob(index)];
      if deleted.Err? {
        r := Err(deleted.error);
        return;
      }
      db.DeleteFiles([row.id]);
      effects := effects + [DeleteRow(index, row.id)];
      r := Ok(0);
    } else {
      var finalized := LocalFinalizeUpload(disk, blob);
      effects := [SyncBlob(index)];
      if finalized.Err? {
        r := Err(finalized.error);
        return;
      }
      db.FinaliseFileUpload(row, EncodeUpdated(finalized.value), now);
      effects := effects + [FinaliseFile(index, row.id)];
      r := Ok(count);
    }
  }

  /** Concatenating effect prefixes. */
  lemma PrependPrepend<T>(e1: seq<Effect>, e2: seq<Effect>, run: Run<T>)
    ensures Prepend(e1, Prepend(e2, run)) == Prepend(e1 + e2, run)
  {
    assert e1 + (e2 + run.effects) == (e1 + e2) + run.effects;
  }

  /**
   * The calls one field makes when nothing fails: open the blob, create the row
   * (`fileId`), copy the bytes; then delete blob and row when nothing arrived, and
   * otherwise sync the blob and complete the row.
   */
  function FieldTrace(session: Token, f: Field, index: nat, fileId: int): (es: seq<Effect>)
    ensures |es| == 5 && es[0].OpenBlob? && es[2] == CopyBytes(index, |f.bytes|)
  {
    [OpenBlob(index, FieldInit(session, f, index)), CreateRow(index, fileId), CopyBytes(index, |f.bytes|)] +
    (if |f.bytes| == 0 then [DeleteBlob(index), DeleteRow(index, fileId)] else [SyncBlob(index), FinaliseFile(index, fileId)])
  }

  /** The `InitFile` of every blob opened in `es`, in order. */
  function Opens(es: seq<Effect>): seq<InitFile>
  {
    if es == [] then [] else (if es[0].OpenBlob? then [es[0].init] else []) + Opens(es[1..])
  }

  /** The number of bytes copied in `es`. */
  function Copied(es: seq<Effect>): nat
  {
    if es == [] then 0 else (if es[0].CopyBytes? then es[0].count else 0) + Copied(es[1..])
  }

  /** A call made for a single field, as opposed to the calls about the whole token. */
  predicate FieldEffect(e: Effect)
  {
    !e.InitiateUpload? && !e.FinaliseToken?
  }

  /** Every call in `es` is a per-field call. */
  predicate FieldEffects(es: seq<Effect>)
  {
    forall k :: 0 <= k < |es| ==> FieldEffect(es[k])
  }

  /** `Opens` and `Copied` add up over concatenated traces. */
  lemma TraceAppend(a: seq<Effect>, b: seq<Effect>)
    ensures Opens(a + b) == Opens(a) + Opens(b)
    ensures Copied(a + b) == Copied(a) + Copied(b)
  {
    OpensAppend(a, b);
    CopiedAppend(a, b);
  }

  lemma {:induction false} OpensAppend(a: seq<Effect>, b: seq<Effect>)
    ensures Opens(a + b) == Opens(a) + Opens(b)
  {
    if a == [] {
      assert a + b == b;
    } else {
      var ab := a + b;
      assert ab[0] == a[0] && ab[1..] == a[1..] + b;
      OpensAppend(a[1..], b);
    }
  }

  lemma {:induction false} CopiedAppend(a: seq<Effect>, b: seq<Effect>)
    ensures Copied(a + b) == Copied(a) + Copied(b)
  {
    if a == [] {
      assert a + b == b;
    } else {
      var ab := a + b;
      assert ab[0] == a[0] && ab[1..] == a[1..] + b;
      CopiedAppend(a[1..], b);
    }
  }

  /** The calls after a complete copy of `count` bytes when nothing fails. */
  function CloseTrace(row: DbFile, index: nat, count: nat): (es: seq<Effect>)
    ensures |es| == 2
  {
    if count == 0 then [DeleteBlob(index), DeleteRow(index, row.id)] else [SyncBlob(index), FinaliseFile(index, row.id)]
  }

  /** Closing a field makes the calls of `CloseTrace` in order, stopping after the first that fails. */
  lemma CloseFieldTrace(w: World, row: DbFile, index: nat, blob: LocalFsBlob, data: LocalFsData, count: nat, now: Instant)
    ensures var run := CloseField(w, row, index, blob, data, count, now);
            var trace := CloseTrace(row, index, count);
            1 <= |run.effects| <= 2 && run.effects == trace[..|run.effects|] &&
            (run.result.Ok? <==> run.effects == trace) &&
            (run.result.Ok? ==> run.result.value == count)
  {
  }

  /** After the blob is open: the row, the copy and the close, stopping after the first call that fails. */
  lemma StoreFieldTrace(w: World, session: Token, f: Field, index: nat, blob: LocalFsBlob, data: LocalFsData, now: Instant)
    ensures var run := StoreField(w, session, f, index, blob, data, now);
            var trace := FieldTrace(session, f, index, w.ledger.nextFileId)[1..];
            1 <= |run.effects| <= 4 && run.effects == trace[..|run.effects|] &&
            (run.result.Ok? <==> run.effects == trace) &&
            (run.result.Ok? ==> run.result.value == |f.bytes|)
  {
    var (ls1, row) := CreateFileSpec(w.ledger, session, LocalFsType, EncodeLocal(data), f.mimeType, f.fileName, now);
    var (fs2, wrote) := WriteSpec(w.fs, blob.path, f.bytes);
    var trace := FieldTrace(session, f, index, w.ledger.nextFileId)[1..];
    assert trace == [CreateRow(index, row.id), CopyBytes(index, |f.bytes|)] + CloseTrace(row, index, |f.bytes|);
    if wrote.Ok? && f.failure.None? {
      var closed := CloseField(World(ls1, fs2), row, index, blob, data, |f.bytes|, now);
      CloseFieldTrace(World(ls1, fs2), row, index, blob, data, |f.bytes|, now);
      assert trace[..2] + closed.effects == [CreateRow(index, row.id), CopyBytes(index, |f.bytes|)] + closed.effects;
    }
  }

  /**
   * A field step makes the calls of `FieldTrace` in that order, with the row id the
   * ledger hands out next; a failure cuts the trace short after the failing call,
   * and success runs it to the end and reports the field's byte count.
   */
  lemma FieldStepTrace(w: World, u: LocalFsUploader, session: Token, f: Field, index: nat, now: Instant)
    ensures var run := FieldStep(w, u, session, f, index, now);
            var trace := FieldTrace(session, f, index, w.ledger.nextFileId);
            1 <= |run.effects| <= 5 && run.effects == trace[..|run.effects|] &&
            (run.result.Ok? <==> run.effects == trace) &&
            (run.result.Ok? ==> run.result.value == |f.bytes|)
  {
    var init := FieldInit(session, f, index);
    var (fs1, started) := LocalInitiateSpec(w.fs, u, init);
    var trace := FieldTrace(session, f, index, w.ledger.nextFileId);
    if started.Ok? {
      var stored := StoreField(World(w.ledger, fs1), session, f, index, started.value.0, started.value.1, now);
      StoreFieldTrace(World(w.ledger, fs1), session, f, index, started.value.0, started.value.1, now);
      assert trace == [OpenBlob(index, init)] + trace[1..];
      assert trace[..1] + stored.effects == [OpenBlob(index, init)] + stored.effects;
    }
  }

  /**
   * A field that copies no bytes and succeeds leaves neither a blob nor a file row
   * behind: the row it created is deleted again and so is the file it opened.
   */
  lemma EmptyFieldLeavesNothing(w: World, u: LocalFsUploader, session: Token, f: Field, index: nat, now: Instant)
    requires WellFormed(w.ledger)
    requires |f.bytes| == 0
    requires FieldStep(w, u, session, f, index, now).result.Ok?
    ensures var run := FieldStep(w, u, session, f, index, now);
            run.world.ledger.files == w.ledger.files && run.world.ledger.tokens == w.ledger.tokens &&
            LocalPath(u, FieldInit(session, f, index)) !in run.world.fs.files &&
            forall q :: q != LocalPath(u, FieldInit(session, f, index)) ==> (q in run.world.fs.files <==> q in w.fs.files)
    ensures var run := FieldStep(w, u, session, f, index, now);
            forall q :: q != LocalPath(u, FieldInit(session, f, index)) && q in w.fs.files ==> run.world.fs.files[q] == w.fs.files[q]
  {
    var init := FieldInit(session, f, index);
    var (fs1, started) := LocalInitiateSpec(w.fs, u, init);
    var data := started.value.1;
    StoreEmptyField(World(w.ledger, fs1), session, f, index, started.value.0, data, now);
    var (ls1, row) := CreateFileSpec(w.ledger, session, LocalFsType, EncodeLocal(data), f.mimeType, f.fileName, now);
    DeleteNewestRow(w.ledger, row);
  }

  /** After its blob is open, an empty field that is stored deletes both its row and its blob. */
  lemma StoreEmptyField(w: World, session: Token, f: Field, index: nat, blob: LocalFsBlob, data: LocalFsData, now: Instant)
    requires |f.bytes| == 0
    requires StoreField(w, session, f, index, blob, data, now).result.Ok?
    ensures var run := StoreField(w, session, f, index, blob, data, now);
            var (ls1, row) := CreateFileSpec(w.ledger, session, LocalFsType, EncodeLocal(data), f.mimeType, f.fileName, now);
            run.world.ledger == DeleteFilesSpec(ls1, [row.id]) &&
            run.world.fs == LocalDeleteSpec(WriteSpec(w.fs, blob.path, f.bytes).0, data).0
  {
  }

  /**
   * A field with bytes that succeeds leaves one more row, completed at `now` and
   * pointing at the blob, and a synced blob that starts with the field's bytes.
   */
  lemma FilledFieldIsStored(w: World, u: LocalFsUploader, session: Token, f: Field, index: nat, now: Instant)
    requires WellFormed(w.ledger)
    requires |f.bytes| > 0
    requires FieldStep(w, u, session, f, index, now).result.Ok?
    ensures var run := FieldStep(w, u, session, f, index, now);
            var path := LocalPath(u, FieldInit(session, f, index));
            var n := |w.ledger.files|;
            |run.world.ledger.files| == n + 1 && run.world.ledger.files[..n] == w.ledger.files &&
            run.world.ledger.files[n].id == w.ledger.nextFileId &&
            run.world.ledger.files[n].tokenId == session.id &&
            run.world.ledger.files[n].attemptCounter == session.attemptCounter &&
            run.world.ledger.files[n].completedAt == Some(now) &&
            run.world.ledger.files[n].backendData == EncodeLocal(LocalFsData(path, u.version)) &&
            path in run.world.fs.synced && path in run.world.fs.files &&
            run.world.fs.files[path][..|f.bytes|] == f.bytes
  {
    var init := FieldInit(session, f, index);
    var (fs1, started) := LocalInitiateSpec(w.fs, u, init);
    var blob := started.value.0;
    var data := started.value.1;
    StoreFilledField(World(w.ledger, fs1), session, f, index, blob, data, now);
    var (ls1, row) := CreateFileSpec(w.ledger, session, LocalFsType, EncodeLocal(data), f.mimeType, f.fileName, now);
    var ls2 := FinaliseFileSpec(ls1, row, None, now);
    var n := |w.ledger.files|;
    assert ls2.files[n] == Completed(row, None, now);
    assert ls2.files[..n] == w.ledger.files;
  }

  /**
   * A field whose bytes do not fit on the blob's device fails with the write's io
   * error as `UploadError`: its row stays uncommitted, and its blob holds exactly the
   * bytes that fitted and is not synced.
   */
  lemma FullDeviceFailsField(w: World, u: LocalFsUploader, session: Token, f: Field, index: nat, now: Instant)
    requires LocalPath(u, FieldInit(session, f, index)) !in w.fs.denied
    requires LocalPath(u, FieldInit(session, f, index)) in w.fs.capacity
    requires w.fs.capacity[LocalPath(u, FieldInit(session, f, index))] < |f.bytes|
    ensures var run := FieldStep(w, u, session, f, index, now);
            var path := LocalPath(u, FieldInit(session, f, index));
            var room := w.fs.capacity[path];
            run.result == Err(UploadError(NoSpace)) &&
            run.world.ledger == CreateFileSpec(w.ledger, session, LocalFsType, EncodeLocal(LocalFsData(path, u.version)),
                                               f.mimeType, f.fileName, now).0 &&
            path in run.world.fs.files && run.world.fs.files[path][..room] == f.bytes[..room] &&
            path !in run.world.fs.synced
  {
    var init := FieldInit(session, f, index);
    var (fs1, started) := LocalInitiateSpec(w.fs, u, init);
    WritePartial(fs1, started.value.0.path, f.bytes);
  }

  /** After its blob is open, a field with bytes that is stored leaves its row completed and its blob synced, holding its bytes. */
  lemma StoreFilledField(w: World, session: Token, f: Field, index: nat, blob: LocalFsBlob, data: LocalFsData, now: Instant)
    requires |f.bytes| > 0 && blob.path in w.fs.files
    requires StoreField(w, session, f, index, blob, data, now).result.Ok?
    ensures var run := StoreField(w, session, f, index, blob, data, now);
            var (ls1, row) := CreateFileSpec(w.ledger, session, LocalFsType, EncodeLocal(data), f.mimeType, f.fileName, now);
            run.world.ledger == FinaliseFileSpec(ls1, row, None, now) &&
            blob.path in run.world.fs.synced && blob.path in run.world.fs.files &&
            run.world.fs.files[blob.path][..|f.bytes|] == f.bytes
  {
    var (ls1, row) := CreateFileSpec(w.ledger, session, LocalFsType, EncodeLocal(data), f.mimeType, f.fileName, now);
    var (fs2, wrote) := WriteSpec(w.fs, blob.path, f.bytes);
    CloseFilledField(World(ls1, fs2), row, index, blob, data, |f.bytes|, now);
  }

  /** Closing a field with bytes that succeeds completes its row with no updated locator and syncs its blob, files unchanged. */
  lemma CloseFilledField(w: World, row: DbFile, index: nat, blob: LocalFsBlob, data: LocalFsData, count: nat, now: Instant)
    requires count > 0
    requires CloseField(w, row, index, blob, data, count, now).result.Ok?
    ensures var run := CloseField(w, row, index, blob, data, count, now);
            run.world.ledger == FinaliseFileSpec(w.ledger, row, None, now) &&
            blob.path in run.world.fs.synced && run.world.fs.files == w.fs.files
  {
  }

  /**
   * What the field loop needs to know of one field step: it opens exactly one blob,
   * for this field's `InitFile`; on success its result is the number of bytes it
   * copied; and it makes only per-field calls.
   */
  lemma FieldStepSummary(w: World, u: LocalFsUploader, session: Token, f: Field, index: nat, now: Instant)
    ensures var run := FieldStep(w, u, session, f, index, now);
            Opens(run.effects) == [FieldInit(session, f, index)] &&
            (run.result.Ok? ==> Copied(run.effects) == run.result.value) &&
            FieldEffects(run.effects)
  {
    FieldStepTrace(w, u, session, f, index, now);
    var run := FieldStep(w, u, session, f, index, now);
    TracePrefixSummary(session, f, index, w.ledger.nextFileId, run.effects);
  }

  /** The same facts for any non-empty prefix of a field's trace. */
  lemma TracePrefixSummary(session: Token, f: Field, index: nat, fileId: int, es: seq<Effect>)
    requires 1 <= |es| <= 5 && es == FieldTrace(session, f, index, fileId)[..|es|]
    ensures Opens(es) == [FieldInit(session, f, index)]
    ensures es == FieldTrace(session, f, index, fileId) ==> Copied(es) == |f.bytes|
    ensures FieldEffects(es)
  {
    var trace := FieldTrace(session, f, index, fileId);
    TraceShape(session, f, index, fileId);
    var tail := es[1..];
    assert forall k :: 0 <= k < |tail| ==> tail[k] == trace[k + 1];
    assert es == [es[0]] + tail;
    NoOpens(tail);
    TraceAppend([es[0]], tail);
    if es == trace {
      TraceCopied(session, f, index, fileId);
    }
  }

  /** A field's trace opens its blob first, and every call in it is a per-field call. */
  lemma TraceShape(session: Token, f: Field, index: nat, fileId: int)
    ensures var trace := FieldTrace(session, f, index, fileId);
            trace[0] == OpenBlob(index, FieldInit(session, f, index)) &&
            forall k :: 0 <= k < 5 ==> FieldEffect(trace[k]) && (k > 0 ==> !trace[k].OpenBlob?)
  {
  }

  /** A field's full trace copies exactly the field's bytes. */
  lemma TraceCopied(session: Token, f: Field, index: nat, fileId: int)
    ensures Copied(FieldTrace(session, f, index, fileId)) == |f.bytes|
  {
    var trace := FieldTrace(session, f, index, fileId);
    assert trace == trace[..2] + [trace[2]] + trace[3..];
    NoCopies(trace[..2]);
    NoCopies(trace[3..]);
    assert Copied([trace[2]]) == |f.bytes|;
    TraceAppend(trace[..2], [trace[2]]);
    TraceAppend(trace[..2] + [trace[2]], trace[3..]);
  }

  /** A trace without copies copies nothing. */
  lemma {:induction false} NoCopies(es: seq<Effect>)
    requires forall k :: 0 <= k < |es| ==> !es[k].CopyBytes?
    ensures Copied(es) == 0
  {
    if es != [] {
      NoCopies(es[1..]);
    }
  }

  /** A trace without blob opens opens nothing. */
  lemma {:induction false} NoOpens(es: seq<Effect>)
    requires forall k :: 0 <= k < |es| ==> !es[k].OpenBlob?
    ensures Opens(es) == []
  {
    if es != [] {
      NoOpens(es[1..]);
    }
  }
}
