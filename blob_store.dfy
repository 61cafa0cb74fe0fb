/**
 * The storage backends: where an upload's bytes go, the locator the ledger keeps
 * for them, and how a blob is finalised, read back and deleted.
 *
 * The local backend writes one file per uploaded field under a base directory; the
 * filesystem is a `Disk` object holding a map from path to contents. The Garage
 * (S3-compatible) backend streams a field into a PUT request through a channel; its
 * write handle is the `GarageWriteBlob` class and the bucket an `ObjectStore` object.
 */
module BlobStore {
  import opened Wrappers
  import opened Text
  import opened Errors

  type Byte = b: int | 0 <= b < 256

  /** What the upload handler tells a backend about the field it is about to store. */
  datatype InitFile = InitFile(
    tokenId: int,
    tokenPath: string,
    fileIndex: nat,
    attemptCounter: int,
    mimeType: Option<string>,
    fileName: Option<string>)

  /** The two backends that exist; each is stored in the ledger under its own tag. */
  datatype Backend = LocalFs | Garage

  const LocalFsType: string := "local_fs"
  const GarageType: string := "garage"

  /** `get_type` of each backend: the tags are distinct, so a stored tag names one backend. */
  function BackendType(b: Backend): (t: string)
    ensures t == LocalFsType <==> b == LocalFs
    ensures t == GarageType <==> b == Garage
  {
    match b
    case LocalFs => LocalFsType
    case Garage => GarageType
  }

  // ---------------------------------------------------------------------------
  // Blob names and paths

  /** `"{token_id}_{attempt:02}_{index:03}"`: the name of one field's blob. */
  function BlobName(tokenId: int, attempt: int, index: int): string
  {
    Format(tokenId, 0) + "_" + Format(attempt, 2) + "_" + Format(index, 3)
  }

  /** Three parts joined by `_` split back uniquely when the first two hold no `_`. */
  lemma JoinInjective(x1: string, a1: string, i1: string, x2: string, a2: string, i2: string)
    requires '_' !in x1 && '_' !in x2 && '_' !in a1 && '_' !in a2
    requires x1 + "_" + a1 + "_" + i1 == x2 + "_" + a2 + "_" + i2
    ensures x1 == x2 && a1 == a2 && i1 == i2
  {
    assert x1 + "_" + a1 + "_" + i1 == x1 + ['_'] + (a1 + ['_'] + i1);
    assert x2 + "_" + a2 + "_" + i2 == x2 + ['_'] + (a2 + ['_'] + i2);
    SplitAtFirst(x1, a1 + ['_'] + i1, x2, a2 + ['_'] + i2, '_');
    SplitAtFirst(a1, i1, a2, i2, '_');
  }

  /** Distinct (token id, attempt, index) triples give distinct blob names, negative parts included. */
  lemma BlobNameInjective(t1: int, a1: int, i1: int, t2: int, a2: int, i2: int)
    requires BlobName(t1, a1, i1) == BlobName(t2, a2, i2)
    ensures t1 == t2 && a1 == a2 && i1 == i2
  {
    FormatHasNo(t1, 0, '_');
    FormatHasNo(t2, 0, '_');
    FormatHasNo(a1, 2, '_');
    FormatHasNo(a2, 2, '_');
    JoinInjective(Format(t1, 0), Format(a1, 2), Format(i1, 3), Format(t2, 0), Format(a2, 2), Format(i2, 3));
    FormatInjective(t1, t2, 0);
    FormatInjective(a1, a2, 2);
    FormatInjective(i1, i2, 3);
  }

  /** A blob name never starts with `/`, so pushing it onto a directory appends to that directory. */
  lemma BlobNameRelative(tokenId: int, attempt: int, index: int)
    ensures BlobName(tokenId, attempt, index) != []
    ensures BlobName(tokenId, attempt, index)[0] != '/'
  {
    FormatShape(tokenId, 0);
    var s := BlobName(tokenId, attempt, index);
    assert s[0] == Format(tokenId, 0)[0];
  }

  /**
   * `PathBuf::push` of one component: an absolute component replaces the path,
   * a relative one is appended after a `/` separator unless the path already ends in one.
   */
  function PushPath(base: string, name: string): (p: string)
    ensures name != [] && name[0] == '/' ==> p == name
    ensures (name == [] || name[0] != '/') ==> |p| >= |name| && p[|p| - |name|..] == name
  {
    if name != [] && name[0] == '/' then name
    else if base == [] || base[|base| - 1] == '/' then base + name
    else base + "/" + name
  }

  /** Pushing two relative components onto the same directory gives the same path only for the same component. */
  lemma PushPathInjective(base: string, n1: string, n2: string)
    requires n1 == [] || n1[0] != '/'
    requires n2 == [] || n2[0] != '/'
    requires PushPath(base, n1) == PushPath(base, n2)
    ensures n1 == n2
  {
    var prefix := if base == [] || base[|base| - 1] == '/' then base else base + "/";
    assert PushPath(base, n1) == prefix + n1;
    assert PushPath(base, n2) == prefix + n2;
    assert n1 == (prefix + n1)[|prefix|..];
    assert n2 == (prefix + n2)[|prefix|..];
  }

  // ---------------------------------------------------------------------------
  // The filesystem

  /**
   * Files by path; `denied` holds the paths on which every operation fails with a
   * permission error, `faulty` the paths whose device fails `sync_all` and
   * `remove_file` with an input/output error, and `capacity` maps a path whose
   * device runs out of space to the offset from which writes to it fail.
   */
  datatype FsState = FsState(files: map<string, seq<Byte>>, synced: set<string>, denied: set<string>, faulty: set<string>,
                             capacity: map<string, nat>)

  const IoFailure: IoError := IoError(Other, "input/output error")
  const NoSpace: IoError := IoError(Other, "no space left on device")

  /**
   * Writing `data` from offset 0 into existing contents without truncation: the new
   * bytes replace the head, older bytes past them stay.
   */
  function Overwrite(old_: seq<Byte>, data: seq<Byte>): (r: seq<Byte>)
    ensures |r| == if |old_| > |data| then |old_| else |data|
    ensures r[..|data|] == data
    ensures forall k :: |data| <= k < |r| ==> r[k] == old_[k]
  {
    if |old_| > |data| then data + old_[|data|..] else data
  }

  /** `OpenOptions::new().create(true).write(true).open(path)`: creates an empty file if none exists, keeps existing contents. */
  function OpenCreateWriteSpec(fs: FsState, path: string): (out: (FsState, Result<(), IoError>))
    ensures path in fs.denied <==> out.1.Err?
    ensures out.1.Err? ==> out.0 == fs && out.1.error.kind == PermissionDenied
    ensures out.1.Ok? ==> path in out.0.files && out.0.denied == fs.denied && out.0.faulty == fs.faulty && out.0.synced == fs.synced
    ensures out.1.Ok? ==> out.0.files[path] == (if path in fs.files then fs.files[path] else [])
    ensures out.1.Ok? ==> forall q :: q != path ==> (q in out.0.files <==> q in fs.files)
    ensures out.1.Ok? ==> forall q :: q != path && q in fs.files ==> out.0.files[q] == fs.files[q]
  {
    if path in fs.denied then (fs, Err(IoError(PermissionDenied, "permission denied")))
    else if path in fs.files then (fs, Ok(()))
    else (fs.(files := fs.files[path := []]), Ok(()))
  }

  /** How many bytes of `data`, written from offset 0 to `path`, reach the device before it runs out of space. */
  function Accepted(fs: FsState, path: string, data: seq<Byte>): (n: nat)
    ensures n <= |data|
    ensures n < |data| <==> path in fs.capacity && fs.capacity[path] < |data|
    ensures n < |data| ==> n == fs.capacity[path]
  {
    if path in fs.capacity && fs.capacity[path] < |data| then fs.capacity[path] else |data|
  }

  /**
   * Streaming `data` into a handle opened on `path`, then flushing it: the bytes up to
   * the device's capacity are written and, when that cuts the data short, the write
   * fails with `NoSpace`. A handle on a file removed meanwhile writes nowhere visible.
   */
  function WriteSpec(fs: FsState, path: string, data: seq<Byte>): (out: (FsState, Result<(), IoError>))
    ensures out.1.Err? <==> path in fs.capacity && fs.capacity[path] < |data|
    ensures out.1.Err? ==> out.1.error == NoSpace
    ensures path in fs.files ==> out.0.files == fs.files[path := Overwrite(fs.files[path], data[..Accepted(fs, path, data)])]
    ensures path !in fs.files ==> out.0.files == fs.files
    ensures out.0.synced == fs.synced - {path} && out.0.denied == fs.denied && out.0.faulty == fs.faulty && out.0.capacity == fs.capacity
  {
    var n := Accepted(fs, path, data);
    var fs1 := if path in fs.files then fs.(files := fs.files[path := Overwrite(fs.files[path], data[..n])], synced := fs.synced - {path})
               else fs.(synced := fs.synced - {path});
    (fs1, if n < |data| then Err(NoSpace) else Ok(()))
  }

  /** A write that fits leaves the file starting with all of `data`; one that does not leaves exactly its first `capacity` bytes written. */
  lemma WritePartial(fs: FsState, path: string, data: seq<Byte>)
    requires path in fs.files
    ensures var out := WriteSpec(fs, path, data);
            var n := Accepted(fs, path, data);
            path in out.0.files && out.0.files[path][..n] == data[..n] &&
            (out.1.Ok? ==> out.0.files[path][..|data|] == data)
  {
  }

  /** `File::sync_all`. */
  function SyncSpec(fs: FsState, path: string): (out: (FsState, Result<(), IoError>))
    ensures out.1.Ok? <==> path !in fs.denied && path !in fs.faulty
    ensures out.1.Ok? ==> out.0 == fs.(synced := fs.synced + {path})
    ensures out.1.Err? ==> out.0 == fs && out.1.error.kind == (if path in fs.denied then PermissionDenied else Other)
  {
    if path in fs.denied then (fs, Err(IoError(PermissionDenied, "permission denied")))
    else if path in fs.faulty then (fs, Err(IoFailure))
    else (fs.(synced := fs.synced + {path}), Ok(()))
  }

  /** `fs::remove_file`: fails with NotFound when there is no such file. */
  function RemoveSpec(fs: FsState, path: string): (out: (FsState, Result<(), IoError>))
    ensures path in fs.denied ==> out == (fs, Err(IoError(PermissionDenied, "permission denied")))
    ensures path !in fs.denied && path in fs.faulty ==> out == (fs, Err(IoFailure))
    ensures path !in fs.denied && path !in fs.faulty && path !in fs.files ==> out == (fs, Err(IoError(IoErrorKind.NotFound, "not found")))
    ensures path !in fs.denied && path !in fs.faulty && path in fs.files ==> out.1.Ok? && out.0.files == fs.files - {path}
    ensures out.0.denied == fs.denied && out.0.faulty == fs.faulty
    ensures out.0.synced == fs.synced - (if out.1.Ok? then {path} else {})
  {
    if path in fs.denied then (fs, Err(IoError(PermissionDenied, "permission denied")))
    else if path in fs.faulty then (fs, Err(IoFailure))
    else if path !in fs.files then (fs, Err(IoError(IoErrorKind.NotFound, "not found")))
    else (fs.(files := fs.files - {path}, synced := fs.synced - {path}), Ok(()))
  }

  /** `fs::File::open` for reading. */
  function OpenReadSpec(fs: FsState, path: string): (r: Result<(), IoError>)
    ensures r.Ok? <==> path !in fs.denied && path in fs.files
    ensures path !in fs.denied && path !in fs.files ==> r.error.kind == IoErrorKind.NotFound
  {
    if path in fs.denied then Err(IoError(PermissionDenied, "permission denied"))
    else if path !in fs.files then Err(IoError(IoErrorKind.NotFound, "not found"))
    else Ok(())
  }

  /** The local filesystem, changed in place by the local backend. */
  class Disk {
    var files: map<string, seq<Byte>>
    var synced: set<string>
    const denied: set<string>
    const faulty: set<string>
    const capacity: map<string, nat>

    function State(): FsState
      reads this
    {
      FsState(files, synced, denied, faulty, capacity)
    }

    constructor (files: map<string, seq<Byte>>, denied: set<string>, faulty: set<string>, capacity: map<string, nat>)
      ensures State() == FsState(files, {}, denied, faulty, capacity)
    {
      this.files := files;
      this.synced := {};
      this.denied := denied;
      this.faulty := faulty;
      this.capacity := capacity;
    }

    method OpenCreateWrite(path: string) returns (r: Result<(), IoError>)
      modifies this
      ensures (State(), r) == OpenCreateWriteSpec(old(State()), path)
    {
      if path in denied {
        r := Err(IoError(PermissionDenied, "permission denied"));
      } else {
        if path !in files {
          files := files[path := []];
        }
        r := Ok(());
      }
    }

    method Write(path: string, data: seq<Byte>) returns (r: Result<(), IoError>)
      modifies this
      ensures (State(), r) == WriteSpec(old(State()), path, data)
    {
      var n := |data|;
      if path in capacity && capacity[path] < |data| {
        n := capacity[path];
      }
      if path in files {
        files := files[path := Overwrite(files[path], data[..n])];
      }
      synced := synced - {path};
      r := if n < |data| then Err(NoSpace) else Ok(());
    }

    method SyncAll(path: string) returns (r: Result<(), IoError>)
      modifies this
      ensures (State(), r) == SyncSpec(old(State()), path)
    {
      if path in denied {
        r := Err(IoError(PermissionDenied, "permission denied"));
      } else if path in faulty {
        r := Err(IoFailure);
      } else {
        synced := synced + {path};
        r := Ok(());
      }
    }

    method RemoveFile(path: string) returns (r: Result<(), IoError>)
      modifies this
      ensures (State(), r) == RemoveSpec(old(State()), path)
    {
      if path in denied {
        r := Err(IoError(PermissionDenied, "permission denied"));
      } else if path in faulty {
        r := Err(IoFailure);
      } else if path !in files {
        r := Err(IoError(IoErrorKind.NotFound, "not found"));
      } else {
        files := files - {path};
        synced := synced - {path};
        r := Ok(());
      }
    }

    method OpenRead(path: string) returns (r: Result<(), IoError>)
      ensures r == OpenReadSpec(State(), path)
    {
      if path in denied {
        r := Err(IoError(PermissionDenied, "permission denied"));
      } else if path !in files {
        r := Err(IoError(IoErrorKind.NotFound, "not found"));
      } else {
        r := Ok(());
      }
    }
  }

  // ---------------------------------------------------------------------------
  // The local filesystem backend

  /** `LocalFsUploader`: a base directory and the locator format version (a `u8`). */
  datatype LocalFsUploader = LocalFsUploader(basePath: string, version: nat)

  /** The locator persisted for a local blob. */
  datatype LocalFsData = LocalFsData(path: string, version: nat)

  /** An open file handle together with its path. */
  datatype LocalFsBlob = LocalFsBlob(path: string)

  /** Where the local backend stores the field described by `init`. */
  function LocalPath(u: LocalFsUploader, init: InitFile): string
  {
    PushPath(u.basePath, BlobName(init.tokenId, init.attemptCounter, init.fileIndex))
  }

  /** Two fields of the same uploader get the same path only if they agree on token id, attempt and index. */
  lemma LocalPathInjective(u: LocalFsUploader, i1: InitFile, i2: InitFile)
    requires LocalPath(u, i1) == LocalPath(u, i2)
    ensures i1.tokenId == i2.tokenId && i1.attemptCounter == i2.attemptCounter && i1.fileIndex == i2.fileIndex
  {
    BlobNameRelative(i1.tokenId, i1.attemptCounter, i1.fileIndex);
    BlobNameRelative(i2.tokenId, i2.attemptCounter, i2.fileIndex);
    PushPathInjective(u.basePath, BlobName(i1.tokenId, i1.attemptCounter, i1.fileIndex),
                      BlobName(i2.tokenId, i2.attemptCounter, i2.fileIndex));
    BlobNameInjective(i1.tokenId, i1.attemptCounter, i1.fileIndex, i2.tokenId, i2.attemptCounter, i2.fileIndex);
  }

  /** `initiate_upload` of the local backend. */
  function LocalInitiateSpec(fs: FsState, u: LocalFsUploader, init: InitFile): (out: (FsState, Result<(LocalFsBlob, LocalFsData), AppError>))
    ensures out.1.Ok? ==> out.1.value.0.path == LocalPath(u, init) && out.1.value.1 == LocalFsData(LocalPath(u, init), u.version)
    ensures out.1.Ok? ==> var p := LocalPath(u, init);
      out.0 == fs.(files := if p in fs.files then fs.files else fs.files[p := []])
    ensures out.1.Ok? <==> LocalPath(u, init) !in fs.denied
    ensures out.1.Err? ==> out.0 == fs && out.1.error == UploadBackendError(
      CannotSave(LocalPath(u, init)), IoError(PermissionDenied, "permission denied"))
  {
    var path := LocalPath(u, init);
    var (fs1, openResult) := OpenCreateWriteSpec(fs, path);
    match BackendWithContext(openResult, CannotSave(path))
    case Err(e) => (fs1, Err(e))
    case Ok(_) => (fs1, Ok((LocalFsBlob(path), LocalFsData(path, u.version))))
  }

  method LocalInitiateUpload(u: LocalFsUploader, disk: Disk, init: InitFile)
    returns (r: Result<(LocalFsBlob, LocalFsData), AppError>)
    modifies disk
    ensures (disk.State(), r) == LocalInitiateSpec(old(disk.State()), u, init)
  {
    var path := LocalPath(u, init);
    var openResult := disk.OpenCreateWrite(path);
    match BackendWithContext(openResult, CannotSave(path))
    case Err(e) => r := Err(e);
    case Ok(_) => r := Ok((LocalFsBlob(path), LocalFsData(path, u.version)));
  }

  /** `finalize_upload` of the local backend: sync the file, and no updated locator. */
  function LocalFinalizeSpec(fs: FsState, blob: LocalFsBlob): (out: (FsState, Result<Option<LocalFsData>, AppError>))
    ensures out.1.Ok? ==> out.1.value == None && blob.path in out.0.synced
    ensures out.1.Ok? <==> blob.path !in fs.denied && blob.path !in fs.faulty
    ensures out.1.Err? ==> out.0 == fs && out.1.error.UploadBackendError?
    ensures out.1.Err? ==> out.1.error.context == CannotSync(blob.path)
    ensures out.0.files == fs.files
  {
    var (fs1, synced) := SyncSpec(fs, blob.path);
    match BackendWithContext(synced, CannotSync(blob.path))
    case Err(e) => (fs1, Err(e))
    case Ok(_) => (fs1, Ok(None))
  }

  method LocalFinalizeUpload(disk: Disk, blob: LocalFsBlob) returns (r: Result<Option<LocalFsData>, AppError>)
    modifies disk
    ensures (disk.State(), r) == LocalFinalizeSpec(old(disk.State()), blob)
  {
    var synced := disk.SyncAll(blob.path);
    match BackendWithContext(synced, CannotSync(blob.path))
    case Err(e) => r := Err(e);
    case Ok(_) => r := Ok(None);
  }

  /**
   * `delete_blob` of the local backend: a missing file counts as deleted; any other
   * failure is wrapped with the path.
   */
  function LocalDeleteSpec(fs: FsState, data: LocalFsData): (out: (FsState, Result<(), AppError>))
    ensures out.1.Ok? <==> data.path !in fs.denied && data.path !in fs.faulty
    ensures out.1.Ok? ==> data.path !in out.0.files && out.0.files == fs.files - {data.path}
    ensures out.1.Err? ==> out.0 == fs && out.1.error.UploadBackendError?
    ensures out.1.Err? ==> out.1.error.context == CannotDelete(data.path)
    ensures out.0.denied == fs.denied && out.0.faulty == fs.faulty
  {
    var (fs1, removed) := RemoveSpec(fs, data.path);
    match removed
    case Ok(_) => (fs1, Ok(()))
    case Err(err) =>
      if err.kind == IoErrorKind.NotFound then (fs1, Ok(()))
      else (fs1, BackendWithContext(Err(err), CannotDelete(data.path)))
  }

  method LocalDeleteBlob(disk: Disk, data: LocalFsData) returns (r: Result<(), AppError>)
    modifies disk
    ensures (disk.State(), r) == LocalDeleteSpec(old(disk.State()), data)
  {
    var removed := disk.RemoveFile(data.path);
    match removed
    case Ok(_) => r := Ok(());
    case Err(err) =>
      if err.kind == IoErrorKind.NotFound {
        r := Ok(());
      } else {
        r := BackendWithContext(Err(err), CannotDelete(data.path));
      }
  }

  /** Deleting a local blob twice succeeds twice, and the second delete changes nothing. */
  lemma LocalDeleteTwice(fs: FsState, data: LocalFsData)
    requires data.path !in fs.denied && data.path !in fs.faulty
    ensures var (fs1, r1) := LocalDeleteSpec(fs, data);
            var (fs2, r2) := LocalDeleteSpec(fs1, data);
            r1 == Ok(()) && r2 == Ok(()) && fs2 == fs1
  {
  }

  /** `read_blob` of the local backend: a handle on the locator's path, or the open error wrapped. */
  function LocalReadSpec(fs: FsState, data: LocalFsData): (r: Result<LocalFsBlob, AppError>)
    ensures r.Ok? <==> data.path !in fs.denied && data.path in fs.files
    ensures r.Ok? ==> r.value.path == data.path
    ensures r.Err? ==> r.error.UploadBackendError? && r.error.context == CannotOpen(data.path)
  {
    match BackendWithContext(OpenReadSpec(fs, data.path), CannotOpen(data.path))
    case Err(e) => Err(e)
    case Ok(_) => Ok(LocalFsBlob(data.path))
  }

  method LocalReadBlob(disk: Disk, data: LocalFsData) returns (r: Result<LocalFsBlob, AppError>)
    ensures r == LocalReadSpec(disk.State(), data)
  {
    var openResult := disk.OpenRead(data.path);
    match BackendWithContext(openResult, CannotOpen(data.path))
    case Err(e) => r := Err(e);
    case Ok(_) => r := Ok(LocalFsBlob(data.path));
  }

  // ---------------------------------------------------------------------------
  // Serialised locators

  /**
   * The `backend_data` column: the JSON text of a locator. Its encoding is opaque
   * here; what matters is which locator type it decodes to.
   */
  datatype BackendData = LocalJson(local: LocalFsData) | GarageJson(garage: GarageData) | Unparsable(text: string)

  function EncodeLocal(d: LocalFsData): BackendData { LocalJson(d) }

  function EncodeGarage(d: GarageData): BackendData { GarageJson(d) }

  /** `serde_json::from_str::<LocalFsData>`. */
  function DecodeLocal(s: BackendData): (r: Result<LocalFsData, AppError>)
    ensures r.Err? ==> r.error.InvalidStorageBackendJSON?
  {
    match s
    case LocalJson(d) => Ok(d)
    case GarageJson(_) => Err(InvalidStorageBackendJSON("missing field `path`"))
    case Unparsable(_) => Err(InvalidStorageBackendJSON("expected value"))
  }

  /** `serde_json::from_str::<GarageData>`. */
  function DecodeGarage(s: BackendData): (r: Result<GarageData, AppError>)
    ensures r.Err? ==> r.error.InvalidStorageBackendJSON?
  {
    match s
    case GarageJson(d) => Ok(d)
    case LocalJson(_) => Err(InvalidStorageBackendJSON("missing field `bucket`"))
    case Unparsable(_) => Err(InvalidStorageBackendJSON("expected value"))
  }

  /** Each locator decodes back to itself as its own type and fails to decode as the other. */
  lemma DecodeEncode(l: LocalFsData, g: GarageData)
    ensures DecodeLocal(EncodeLocal(l)) == Ok(l)
    ensures DecodeGarage(EncodeGarage(g)) == Ok(g)
    ensures DecodeLocal(EncodeGarage(g)).Err? && DecodeGarage(EncodeLocal(l)).Err?
  {
  }

  // ---------------------------------------------------------------------------
  // The Garage (S3-compatible) backend

  /** `GarageUploader`: the S3 client (not modelled) and the bucket. */
  datatype GarageUploader = GarageUploader(bucket: string)

  datatype GarageData = GarageData(bucket: string, key: string)

  /** The object key: the client's file name when it sent one, otherwise the same name the local backend uses. */
  function GarageKey(init: InitFile): (key: string)
    ensures init.fileName.Some? ==> key == init.fileName.value
    ensures init.fileName.None? ==> key == BlobName(init.tokenId, init.attemptCounter, init.fileIndex)
  {
    match init.fileName
    case Some(name) => name
    case None => BlobName(init.tokenId, init.attemptCounter, init.fileIndex)
  }

  /** The locator of a Garage upload: the uploader's bucket and the derived key. */
  function GarageLocator(u: GarageUploader, init: InitFile): (d: GarageData)
    ensures d.bucket == u.bucket && d.key == GarageKey(init)
  {
    GarageData(u.bucket, GarageKey(init))
  }

  /** Unnamed fields of different uploads (token id, attempt or index differ) never share a key. */
  lemma GarageKeyDistinct(i1: InitFile, i2: InitFile)
    requires i1.fileName.None? && i2.fileName.None?
    requires (i1.tokenId, i1.attemptCounter, i1.fileIndex) != (i2.tokenId, i2.attemptCounter, i2.fileIndex)
    ensures GarageKey(i1) != GarageKey(i2)
  {
    if GarageKey(i1) == GarageKey(i2) {
      BlobNameInjective(i1.tokenId, i1.attemptCounter, i1.fileIndex, i2.tokenId, i2.attemptCounter, i2.fileIndex);
    }
  }

  /**
   * A named field's key is the client's file name alone: two uploads of the same
   * name, under any tokens, attempts or indices, share one object, and the second
   * finalised PUT replaces what the first stored.
   */
  lemma GarageNamedKeysCollide(u: GarageUploader, i1: InitFile, i2: InitFile, objects: map<GarageData, seq<Byte>>, b1: seq<Byte>, b2: seq<Byte>)
    requires i1.fileName.Some? && i1.fileName == i2.fileName
    ensures GarageLocator(u, i1) == GarageLocator(u, i2)
    ensures objects[GarageLocator(u, i1) := b1][GarageLocator(u, i2) := b2] == objects[GarageLocator(u, i1) := b2]
  {
  }

  /** `std::task::Poll`. */
  datatype Poll<T> = Pending | Ready(value: T)

  /** A call that returns normally, or panics: polling a `Map` future again after it returned `Ready` panics. */
  datatype Outcome<T> = Returned(value: T) | PolledAfterReady

  /** One `poll_ready` of the body channel: not ready yet, closed, or ready, with whether `try_send_data` then takes the chunk. */
  datatype ChanPoll = ChanPending | ChanClosed | ChanReady(accepts: bool)

  /** What the request body has seen: still streaming, end of stream (sender dropped), or an abort. */
  datatype BodyEnd = Streaming | Eof | Aborted

  /** The first channel poll that decides a write: a refused `try_send_data` makes the loop poll again. */
  function ChanOutcome(chan: seq<ChanPoll>): (r: ChanPoll)
    ensures r != ChanReady(false)
    ensures r == ChanPending || r in chan
    ensures (forall k :: 0 <= k < |chan| ==> chan[k] == ChanReady(false)) ==> r == ChanPending
  {
    if chan == [] then ChanPending
    else if chan[0] == ChanReady(false) then ChanOutcome(chan[1..])
    else chan[0]
  }

  /**
   * What `poll_write` returns: an upload future that has already failed returns its
   * error; with the channel gone every write is an error; otherwise the channel
   * decides, and an accepted chunk is reported in full.
   */
  function PollWriteResult(hasChan: bool, len: nat, upstream: Poll<Result<(), IoError>>, chan: seq<ChanPoll>): (r: Poll<Result<nat, IoError>>)
    ensures upstream.Ready? && upstream.value.Err? ==> r == Ready(Err(upstream.value.error))
    ensures !(upstream.Ready? && upstream.value.Err?) && !hasChan ==> r == Ready(Err(IoError(Other, "")))
    ensures r.Ready? && r.value.Ok? ==> r.value.value == len && hasChan && ChanOutcome(chan) == ChanReady(true)
    ensures r.Pending? ==> hasChan && ChanOutcome(chan) == ChanPending
  {
    if upstream.Ready? && upstream.value.Err? then Ready(Err(upstream.value.error))
    else if !hasChan then Ready(Err(IoError(Other, "")))
    else match ChanOutcome(chan)
      case ChanPending => Pending
      case ChanClosed => Ready(Err(IoError(Other, "")))
      case ChanReady(_) => Ready(Ok(len))
  }

  /**
   * `GarageWriteBlob`: the sending half of the PUT request's body channel (`Some`
   * while `hasChan`), whether `send_future` has already returned `Ready` (after
   * which the `Map` future must not be polled again), what the request has
   * received so far, and where it goes.
   */
  class GarageWriteBlob {
    var hasChan: bool
    var futureDone: bool
    var body: BodyEnd
    var sent: seq<Byte>
    const target: GarageData
    const contentType: Option<string>

    /** The channel is open exactly while the body is still streaming. */
    ghost predicate Valid()
      reads this
    {
      hasChan <==> body == Streaming
    }

    /** `initiate_upload` of the Garage backend: a fresh channel feeding a PUT to the derived locator. */
    constructor Initiate(u: GarageUploader, init: InitFile)
      ensures Valid()
      ensures hasChan && !futureDone && body == Streaming && sent == []
      ensures target == GarageLocator(u, init) && contentType == init.mimeType
    {
      hasChan := true;
      futureDone := false;
      body := Streaming;
      sent := [];
      target := GarageLocator(u, init);
      contentType := init.mimeType;
    }

    /**
     * `poll_write`, with the upload future's poll and the successive `poll_ready`
     * results of the channel as inputs. A `Ready(Ok)` of the upload future is
     * ignored, but it leaves the future finished: the next poll of it panics.
     */
    method PollWrite(buf: seq<Byte>, upstream: Poll<Result<(), IoError>>, chan: seq<ChanPoll>)
      returns (r: Outcome<Poll<Result<nat, IoError>>>)
      requires Valid()
      modifies this
      ensures Valid()
      ensures r.PolledAfterReady? <==> old(futureDone)
      ensures r.PolledAfterReady? ==> hasChan == old(hasChan) && futureDone && body == old(body) && sent == old(sent)
      ensures r.Returned? ==> r.value == PollWriteResult(old(hasChan), |buf|, upstream, chan) && futureDone == upstream.Ready?
      ensures r.Returned? ==> sent == if r.value.Ready? && r.value.value.Ok? then old(sent) + buf else old(sent)
      ensures r.Returned? && upstream.Ready? && upstream.value.Err? ==> !hasChan && body == (if old(hasChan) then Aborted else old(body))
      ensures r.Returned? && !(upstream.Ready? && upstream.value.Err?) ==> hasChan == old(hasChan) && body == old(body)
    {
      if futureDone {
        return PolledAfterReady;
      }
      futureDone := upstream.Ready?;
      if upstream.Ready? && upstream.value.Err? {
        if hasChan {
          hasChan := false;
          body := Aborted;
        }
        return Returned(Ready(Err(upstream.value.error)));
      }
      if !hasChan {
        return Returned(Ready(Err(IoError(Other, ""))));
      }
      var i := 0;
      while i < |chan|
        invariant 0 <= i <= |chan|
        invariant ChanOutcome(chan) == ChanOutcome(chan[i..])
        invariant sent == old(sent) && hasChan && body == old(body) && futureDone == upstream.Ready?
      {
        assert chan[i..][1..] == chan[i + 1..];
        match chan[i]
        case ChanPending =>
          return Returned(Pending);
        case ChanClosed =>
          return Returned(Ready(Err(IoError(Other, ""))));
        case ChanReady(accepts) =>
          if accepts {
            sent := sent + buf;
            return Returned(Ready(Ok(|buf|)));
          }
        i := i + 1;
      }
      return Returned(Pending);
    }

    /** `poll_flush`: drop the sender, which ends the request body, and report success. */
    method PollFlush() returns (r: Poll<Result<(), IoError>>)
      requires Valid()
      modifies this
      ensures Valid()
      ensures r == Ready(Ok(()))
      ensures !hasChan && sent == old(sent) && futureDone == old(futureDone)
      ensures body == if old(body) == Streaming then Eof else old(body)
    {
      if hasChan {
        hasChan := false;
        body := Eof;
      }
      r := Ready(Ok(()));
    }

    /**
     * `poll_shutdown`: one more poll of the upload future, whose answer is `upstream`.
     * It panics when an earlier poll already saw the future finish; a `Ready` answer
     * finishes it, so shutdown cannot be polled again after it answered.
     */
    method PollShutdown(upstream: Poll<Result<(), IoError>>) returns (r: Outcome<Poll<Result<(), IoError>>>)
      modifies this
      ensures r.PolledAfterReady? <==> old(futureDone)
      ensures r.Returned? ==> r.value == upstream && futureDone == upstream.Ready?
      ensures r.PolledAfterReady? ==> futureDone
      ensures hasChan == old(hasChan) && body == old(body) && sent == old(sent)
    {
      if futureDone {
        return PolledAfterReady;
      }
      futureDone := upstream.Ready?;
      r := Returned(upstream);
    }
  }

  /** `delete_blob` of the Garage backend: deleting an absent key succeeds, an unreachable service does not. */
  function GarageDeleteSpec(objects: map<GarageData, seq<Byte>>, online: bool, data: GarageData)
    : (out: (map<GarageData, seq<Byte>>, Result<(), AppError>))
    ensures out.1.Ok? <==> online
    ensures out.1.Ok? ==> data !in out.0 && out.0 == objects - {data}
    ensures out.1.Err? ==> out.1.error.S3DeleteError? && out.0 == objects
  {
    if online then (objects - {data}, Ok(())) else (objects, Err(S3DeleteError("dispatch failure")))
  }

  /** Deleting a Garage object twice succeeds twice, and the second delete changes nothing. */
  lemma GarageDeleteTwice(objects: map<GarageData, seq<Byte>>, data: GarageData)
    ensures var (o1, r1) := GarageDeleteSpec(objects, true, data);
            var (o2, r2) := GarageDeleteSpec(o1, true, data);
            r1 == Ok(()) && r2 == Ok(()) && o2 == o1
  {
  }

  /** `read_blob` of the Garage backend: the object's bytes, or an S3 read error. */
  function GarageReadSpec(objects: map<GarageData, seq<Byte>>, online: bool, data: GarageData): (r: Result<seq<Byte>, AppError>)
    ensures r.Ok? <==> online && data in objects
    ensures r.Ok? ==> r.value == objects[data]
    ensures r.Err? ==> r.error.S3ReadError?
  {
    if !online || data !in objects then Err(S3ReadError("NoSuchKey")) else Ok(objects[data])
  }

  /** Both blob stores: the local filesystem and the Garage bucket, with whether the latter is reachable. */
  datatype Stores = Stores(fs: FsState, objects: map<GarageData, seq<Byte>>, online: bool)

  /** The bucket contents behind the S3 client, and whether the service can be reached. */
  class ObjectStore {
    var objects: map<GarageData, seq<Byte>>
    const online: bool

    constructor (objects: map<GarageData, seq<Byte>>, online: bool)
      ensures this.objects == objects && this.online == online
    {
      this.objects := objects;
      this.online := online;
    }

    /**
     * `finalize_upload` of the Garage backend: flush (which ends the body), then
     * wait for the PUT, whose result is `upstream`. A completed PUT stores the bytes
     * the body carried; there is never an updated locator. When a write already saw
     * the PUT finish, the wait polls the finished future again and panics.
     */
    method FinalizeUpload(blob: GarageWriteBlob, upstream: Result<(), IoError>) returns (r: Outcome<Result<Option<GarageData>, AppError>>)
      requires blob.Valid()
      modifies this, blob
      ensures blob.Valid() && !blob.hasChan && blob.sent == old(blob.sent) && blob.futureDone
      ensures r.PolledAfterReady? <==> old(blob.futureDone)
      ensures r.PolledAfterReady? ==> objects == old(objects)
      ensures r.Returned? ==> (r.value.Ok? <==> upstream.Ok?)
      ensures r.Returned? && r.value.Ok? ==> r.value.value.None? && objects == old(objects)[blob.target := blob.sent]
      ensures r.Returned? && r.value.Err? ==> r.value.error == UploadError(upstream.error) && objects == old(objects)
      ensures r.Returned? && r.value.Err? ==> IntoResponse(r.value.error).status == StatusInternalServerError
    {
      var flushed := blob.PollFlush();
      var shut := blob.PollShutdown(Ready(upstream));
      if shut.PolledAfterReady? {
        return PolledAfterReady;
      }
      match shut.value.value
      case Err(e) =>
        r := Returned(Err(FromIo(e)));
      case Ok(_) =>
        objects := objects[blob.target := blob.sent];
        r := Returned(Ok(None));
    }

    /** `delete_blob` of the Garage backend. */
    method DeleteBlob(data: GarageData) returns (r: Result<(), AppError>)
      modifies this
      ensures (objects, r) == GarageDeleteSpec(old(objects), online, data)
    {
      if !online {
        return Err(S3DeleteError("dispatch failure"));
      }
      objects := objects - {data};
      r := Ok(());
    }

    /** `read_blob` of the Garage backend. */
    method ReadBlob(data: GarageData) returns (r: Result<seq<Byte>, AppError>)
      ensures r == GarageReadSpec(objects, online, data)
    {
      if !online || data !in objects {
        return Err(S3ReadError("NoSuchKey"));
      }
      r := Ok(objects[data]);
    }
  }
}
