/**
 * The retention sweeper (`cleanup` and `delete_file` in src/cleanup.rs): delete the
 * blob of every file that is due for deletion, and only when all of those deletes
 * succeed, delete their rows and then the expired tokens, with one `now` throughout.
 *
 * `delete_file` dispatches on the row's `backend_type`. As written, the garage branch
 * decodes `backend_data` as a local locator and hands it to the local store (the
 * sweeper is only given a `LocalFsUploader`), so a garage row can never be swept;
 * `asWritten` selects that behaviour, and the corrected dispatch deletes the object
 * from the Garage store instead.
 */
module Sweeper {
  import opened Wrappers
  import opened Errors
  import opened BlobStore
  import opened Ledger

  /** `delete_file`: one blob delete, dispatched on the row's backend type; an unknown type is only logged. */
  function DeleteFileSpec(s: Stores, f: DbFile, asWritten: bool): (out: (Stores, Result<(), AppError>))
    ensures f.backendType != LocalFsType && f.backendType != GarageType ==> out == (s, Ok(()))
    ensures out.1.Err? ==> out.0 == s
    ensures out.0.fs.denied == s.fs.denied && out.0.fs.faulty == s.fs.faulty && out.0.online == s.online
    ensures LocalBranch(f, asWritten) ==>
              (out.1.Ok? <==> f.backendData.LocalJson? &&
                              f.backendData.local.path !in s.fs.denied && f.backendData.local.path !in s.fs.faulty)
    ensures LocalBranch(f, asWritten) && f.backendData.LocalJson? && out.1.Ok? ==>
              out.0 == s.(fs := s.fs.(files := s.fs.files - {f.backendData.local.path}, synced := out.0.fs.synced))
    ensures GarageBranch(f, asWritten) ==> (out.1.Ok? <==> f.backendData.GarageJson? && s.online)
    ensures GarageBranch(f, asWritten) && out.1.Ok? ==> out.0 == s.(objects := s.objects - {f.backendData.garage})
  {
    if LocalBranch(f, asWritten) then
      match DecodeLocal(f.backendData)
      case Err(e) => (s, Err(e))
      case Ok(d) =>
        var (fs1, r) := LocalDeleteSpec(s.fs, d);
        (s.(fs := fs1), r)
    else if GarageBranch(f, asWritten) then
      match DecodeGarage(f.backendData)
      case Err(e) => (s, Err(e))
      case Ok(g) =>
        var (objects1, r) := GarageDeleteSpec(s.objects, s.online, g);
        (s.(objects := objects1), r)
    else
      (s, Ok(()))
  }

  /** The rows whose `backend_data` goes to the local store's `delete_blob`. */
  predicate LocalBranch(f: DbFile, asWritten: bool)
  {
    f.backendType == LocalFsType || (asWritten && f.backendType == GarageType)
  }

  /** The rows whose `backend_data` goes to the Garage store's `delete_blob`. */
  predicate GarageBranch(f: DbFile, asWritten: bool)
  {
    !asWritten && f.backendType == GarageType
  }

  /**
   * `try_join_all` over the deletes: each file gets one attempt, in list order, and
   * the first error is what the join reports.
   */
  function Sweep(s: Stores, files: seq<DbFile>, asWritten: bool): (out: (Stores, Option<AppError>))
    decreases |files|
  {
    if files == [] then (s, None)
    else
      var (s1, first) := Sweep(s, files[..|files| - 1], asWritten);
      var (s2, r) := DeleteFileSpec(s1, files[|files| - 1], asWritten);
      (s2, if first.Some? then first else if r.Err? then Some(r.error) else None)
  }

  /** The ids of the listed files, in order. */
  function Ids(files: seq<DbFile>): (ids: seq<int>)
    ensures |ids| == |files| && forall k :: 0 <= k < |files| ==> ids[k] == files[k].id
  {
    seq(|files|, k requires 0 <= k < |files| => files[k].id)
  }

  /** `cleanup`: the ledger, the stores and the result after one sweep at `now`. */
  function CleanupSpec(ls: LedgerState, s: Stores, now: Instant, asWritten: bool): (out: (LedgerState, Stores, Result<(), AppError>))
    ensures FilesToDelete(ls, now) == [] ==> out == (ls, s, Ok(()))
    ensures out.2.Err? ==> out.0 == ls
    ensures out.2.Ok? && FilesToDelete(ls, now) != [] ==>
              (forall f :: f in out.0.files <==> f in ls.files && f.id !in Ids(FilesToDelete(ls, now))) &&
              (forall t :: t in out.0.tokens <==> t in ls.tokens && !TokenExpired(t, now))
    ensures out.2.Ok? ==> forall k :: 0 <= k < |FilesToDelete(ls, now)| ==> Cleared(out.1, FilesToDelete(ls, now)[k], asWritten)
    ensures out.1.fs.denied == s.fs.denied && out.1.fs.faulty == s.fs.faulty && out.1.online == s.online
    ensures WellFormed(ls) ==> WellFormed(out.0)
  {
    var files := FilesToDelete(ls, now);
    if files == [] then (ls, s, Ok(()))
    else
      var (s1, first) := Sweep(s, files, asWritten);
      SweepClears(s, files, asWritten);
      if first.Some? then (ls, s1, Err(first.value))
      else (DeleteExpiredTokensSpec(DeleteFilesSpec(ls, Ids(files)), now).0, s1, Ok(()))
  }

  // ---------------------------------------------------------------------------
  // What a successful sweep leaves behind

  /** The blob of `f` is gone from the store its row is dispatched to. */
  predicate Cleared(s: Stores, f: DbFile, asWritten: bool)
  {
    (LocalBranch(f, asWritten) ==> f.backendData.LocalJson? && f.backendData.local.path !in s.fs.files) &&
    (GarageBranch(f, asWritten) ==> f.backendData.GarageJson? && f.backendData.garage !in s.objects)
  }

  /** `s1` only lacks blobs `s` has: nothing was added or rewritten, and the failure sets are the same. */
  predicate Shrinks(s: Stores, s1: Stores)
  {
    s1.fs.denied == s.fs.denied && s1.fs.faulty == s.fs.faulty && s1.online == s.online &&
    (forall p :: p in s1.fs.files ==> p in s.fs.files && s1.fs.files[p] == s.fs.files[p]) &&
    (forall g :: g in s1.objects ==> g in s.objects && s1.objects[g] == s.objects[g])
  }

  lemma ShrinksTrans(s: Stores, s1: Stores, s2: Stores)
    requires Shrinks(s, s1) && Shrinks(s1, s2)
    ensures Shrinks(s, s2)
  {
  }

  /**
   * A sweep only removes blobs; when it reports no error, every listed blob is gone
   * from its store, and every local-dispatched row held a local locator.
   */
  lemma {:induction false} SweepClears(s: Stores, files: seq<DbFile>, asWritten: bool)
    ensures Shrinks(s, Sweep(s, files, asWritten).0)
    ensures Sweep(s, files, asWritten).1.None? ==>
              forall k :: 0 <= k < |files| ==> Cleared(Sweep(s, files, asWritten).0, files[k], asWritten)
    decreases |files|
  {
    if files != [] {
      var init := files[..|files| - 1];
      var last := files[|files| - 1];
      SweepClears(s, init, asWritten);
      var (s1, first) := Sweep(s, init, asWritten);
      var (s2, r) := DeleteFileSpec(s1, last, asWritten);
      assert Shrinks(s1, s2);
      ShrinksTrans(s, s1, s2);
      if first.None? && r.Ok? {
        forall k | 0 <= k < |files|
          ensures Cleared(s2, files[k], asWritten)
        {
          if k < |files| - 1 {
            assert files[k] == init[k];
          }
        }
      }
    }
  }

  /** A row whose delete fails in every state of the stores. */
  ghost predicate AlwaysFails(f: DbFile, asWritten: bool)
  {
    forall s: Stores :: DeleteFileSpec(s, f, asWritten).1.Err?
  }

  /** One row that always fails makes the whole sweep report an error. */
  lemma {:induction false} SweepFailsWith(s: Stores, files: seq<DbFile>, asWritten: bool, k: nat)
    requires k < |files| && AlwaysFails(files[k], asWritten)
    ensures Sweep(s, files, asWritten).1.Some?
    decreases |files|
  {
    var init := files[..|files| - 1];
    var (s1, first) := Sweep(s, init, asWritten);
    if k < |files| - 1 {
      assert init[k] == files[k];
      SweepFailsWith(s, init, asWritten, k);
    } else {
      assert DeleteFileSpec(s1, files[k], asWritten).1.Err?;
    }
  }

  /**
   * As written, the garage branch decodes a garage locator as a local one, which
   * fails; a due garage row therefore makes every sweep fail, so neither it nor any
   * other due row, nor any expired token, is ever deleted.
   */
  lemma GarageRowBlocksSweep(ls: LedgerState, s: Stores, now: Instant, f: DbFile)
    requires f in FilesToDelete(ls, now) && f.backendType == GarageType && f.backendData.GarageJson?
    ensures CleanupSpec(ls, s, now, true).2.Err? && CleanupSpec(ls, s, now, true).0 == ls
    ensures forall later: Instant :: later >= now ==> f in FilesToDelete(CleanupSpec(ls, s, now, true).0, later)
  {
    var files := FilesToDelete(ls, now);
    var k :| 0 <= k < |files| && files[k] == f;
    assert AlwaysFails(f, true) by {
      forall s': Stores
        ensures DeleteFileSpec(s', f, true).1.Err?
      {
        assert DecodeLocal(f.backendData).Err?;
      }
    }
    SweepFailsWith(s, files, true, k);
  }

  /**
   * With the corrected dispatch, a sweep succeeds whenever each due row holds a
   * locator of its own type, no local path is denied or faulty, and the Garage
   * service is reachable; then every due blob, garage ones included, is gone.
   */
  lemma CleanupSucceeds(ls: LedgerState, s: Stores, now: Instant)
    requires s.online
    requires forall f :: f in FilesToDelete(ls, now) ==> Deletable(s, f)
    ensures CleanupSpec(ls, s, now, false).2.Ok?
    ensures forall f :: f in FilesToDelete(ls, now) ==> Cleared(CleanupSpec(ls, s, now, false).1, f, false)
  {
    var files := FilesToDelete(ls, now);
    SweepSucceeds(s, files);
  }

  /** A row the corrected dispatch can delete in `s` and in any state with the same failure sets. */
  predicate Deletable(s: Stores, f: DbFile)
  {
    (f.backendType == LocalFsType ==>
       f.backendData.LocalJson? && f.backendData.local.path !in s.fs.denied && f.backendData.local.path !in s.fs.faulty) &&
    (f.backendType == GarageType ==> f.backendData.GarageJson?)
  }

  lemma {:induction false} SweepSucceeds(s: Stores, files: seq<DbFile>)
    requires s.online
    requires forall k :: 0 <= k < |files| ==> Deletable(s, files[k])
    ensures Sweep(s, files, false).1.None?
    decreases |files|
  {
    if files != [] {
      var init := files[..|files| - 1];
      assert forall k :: 0 <= k < |init| ==> init[k] == files[k];
      SweepSucceeds(s, init);
      SweepClears(s, init, false);
    }
  }

  // ---------------------------------------------------------------------------
  // The sweeper over the database and the two stores

  function StoresOf(disk: Disk, store: ObjectStore): Stores
    reads disk, store
  {
    Stores(disk.State(), store.objects, store.online)
  }

  /**
   * `delete_file`: as written (`asWritten`) both known types go to the local store,
   * and the Garage store is never touched; corrected, the garage branch deletes
   * from the Garage store.
   */
  method DeleteFile(disk: Disk, store: ObjectStore, f: DbFile, asWritten: bool) returns (r: Result<(), AppError>)
    modifies disk, store
    ensures (StoresOf(disk, store), r) == DeleteFileSpec(old(StoresOf(disk, store)), f, asWritten)
  {
    if LocalBranch(f, asWritten) {
      match DecodeLocal(f.backendData)
      case Err(e) => r := Err(e);
      case Ok(d) => r := LocalDeleteBlob(disk, d);
    } else if GarageBranch(f, asWritten) {
      match DecodeGarage(f.backendData)
      case Err(e) => r := Err(e);
      case Ok(g) => r := store.DeleteBlob(g);
    } else {
      r := Ok(());
    }
  }

  /** The `try_join_all` over the due files: one delete each, in order, keeping the first error. */
  method DeleteAll(disk: Disk, store: ObjectStore, files: seq<DbFile>, asWritten: bool) returns (first: Option<AppError>)
    modifies disk, store
    ensures (StoresOf(disk, store), first) == Sweep(old(StoresOf(disk, store)), files, asWritten)
  {
    ghost var s0 := StoresOf(disk, store);
    var i := 0;
    first := None;
    while i < |files|
      invariant 0 <= i <= |files|
      invariant (StoresOf(disk, store), first) == Sweep(s0, files[..i], asWritten)
    {
      assert files[..i + 1][..i] == files[..i];
      var res := DeleteFile(disk, store, files[i], asWritten);
      if first.None? && res.Err? {
        first := Some(res.error);
      }
      i := i + 1;
    }
    assert files[..i] == files;
  }

  /** `cleanup`: delete every due blob, and only if all succeed, the due rows and then the expired tokens. */
  method Cleanup(db: Db, disk: Disk, store: ObjectStore, now: Instant, asWritten: bool) returns (r: Result<(), AppError>)
    requires db.Valid()
    modifies db, disk, store
    ensures db.Valid()
    ensures (db.State(), StoresOf(disk, store), r) == CleanupSpec(old(db.State()), old(StoresOf(disk, store)), now, asWritten)
  {
    var files := db.GetFilesToDelete(now);
    if files == [] {
      return Ok(());
    }
    var first := DeleteAll(disk, store, files, asWritten);
    if first.Some? {
      return Err(first.value);
    }
    db.DeleteFiles(Ids(files));
    var gone := db.DeleteExpiredTokens(now);
    r := Ok(());
  }
}
