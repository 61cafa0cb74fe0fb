/**
 * The upload page handlers: `post_upload_form`, which stores every field of a
 * multipart upload against a fresh token.
 *
 * The handler runs with the local filesystem backend. What it does is described
 * twice: by `PostUploadSpec`, a function from the ledger and the filesystem before
 * the request to the ledger and filesystem after it, the response and the sequence
 * of storage and ledger calls made; and by the method `PostUploadForm`, which makes
 * those calls one after the other on the `Db` and `Disk` objects and is proved to
 * agree with the function.
 */
module UploadHandler {
  import opened Wrappers
  import opened Text
  import opened Errors
  import opened BlobStore
  import opened Ledger
  import opened FieldStore

  /** The multipart body: its fields in order, and the framing error met after the last one, if any. */
  datatype Multipart = Multipart(fields: seq<Field>, trailer: Option<string>)

  /** The pages the handler answers with. */
  datatype Page = NoLinkFoundPage | RedirectTo(location: string)

  /**
   * The field loop from the field after `index` on, with `total` bytes copied so far:
   * stops at the first error; at the end of the fields, a framing error is an error
   * and otherwise the result is the total number of bytes copied.
   */
  function FieldLoop(step: FieldStepFn, w: World, fields: seq<Field>, trailer: Option<string>, index: nat, total: nat): (run: Run<nat>)
    decreases |fields|
  {
    if fields == [] then
      if trailer.Some? then Run(w, Err(FromMultipartError(trailer.value)), []) else Run(w, Ok(total), [])
    else
      var first := step(w, fields[0], index + 1);
      if first.result.Err? then first
      else Prepend(first.effects, FieldLoop(step, first.world, fields[1..], trailer, index + 1, total + first.result.value))
  }

  /** The whole field loop of one upload session. */
  function FieldsSpec(w: World, u: LocalFsUploader, session: Token, mp: Multipart, now: Instant): (run: Run<nat>)
  {
    FieldLoop(StepOf(u, session, now), w, mp.fields, mp.trailer, 0, 0)
  }

  /** Where the handler sends the browser after an upload: the token's page. */
  function FilesPage(path: string): string { "/f/" + path }

  /**
   * `post_upload_form`: only a fresh token goes on; its attempt counter is bumped once;
   * then every field is stored; the token is finalised only when some bytes arrived.
   */
  function PostUploadSpec(w: World, u: LocalFsUploader, path: string, mp: Multipart, now: Instant): (run: Run<Page>)
  {
    match GetToken(w.ledger, path, now)
    case FreshToken(t) =>
      var (ls1, started) := InitiateUploadSpec(w.ledger, t, now);
      if started.Err? then Run(World(ls1, w.fs), Err(started.error), [InitiateUpload(t.id)])
      else
        var session := started.value;
        var fields := FieldsSpec(World(ls1, w.fs), u, session, mp, now);
        var effects := [InitiateUpload(t.id)] + fields.effects;
        if fields.result.Err? then Run(fields.world, Err(fields.result.error), effects)
        else if fields.result.value == 0 then Run(fields.world, Ok(RedirectTo(FilesPage(path))), effects)
        else Run(World(FinaliseTokenSpec(fields.world.ledger, session, now), fields.world.fs), Ok(RedirectTo(FilesPage(path))),
                 effects + [FinaliseToken(session.id, session.attemptCounter)])
    case _ => Run(w, Ok(NoLinkFoundPage), [])
  }

  /** The `InitFile` of every field from the one after `index` on: token id, attempt counter and the index in stream order. */
  function Inits(session: Token, fields: seq<Field>, index: nat): (r: seq<InitFile>)
    ensures |r| == |fields|
    ensures forall k :: 0 <= k < |fields| ==> r[k] == FieldInit(session, fields[k], index + k + 1)
    decreases |fields|
  {
    if fields == [] then [] else [FieldInit(session, fields[0], index + 1)] + Inits(session, fields[1..], index + 1)
  }

  /** A field step opens one blob, for the field it is given. */
  ghost predicate OpensOne(step: FieldStepFn, session: Token)
  {
    forall w, f, index :: Opens(step(w, f, index).effects) == [FieldInit(session, f, index)]
  }

  /** A field step that succeeds reports the bytes it copied. */
  ghost predicate CountsCopies(step: FieldStepFn)
  {
    forall w, f, index :: step(w, f, index).result.Ok? ==> Copied(step(w, f, index).effects) == step(w, f, index).result.value
  }

  /** A field step makes only per-field calls. */
  ghost predicate StaysInField(step: FieldStepFn)
  {
    forall w, f, index :: FieldEffects(step(w, f, index).effects)
  }

  /** The field step of a session has all three properties. */
  lemma StepOfWellBehaved(u: LocalFsUploader, session: Token, now: Instant)
    ensures OpensOne(StepOf(u, session, now), session)
    ensures CountsCopies(StepOf(u, session, now))
    ensures StaysInField(StepOf(u, session, now))
  {
    forall w, f, index {
      FieldStepSummary(w, u, session, f, index, now);
    }
  }

  /**
   * The field loop opens the blobs of the fields in stream order, numbered from
   * `index + 1`, stopping at the first failure; on success it opened every field.
   */
  lemma {:induction false} FieldLoopOpens(step: FieldStepFn, session: Token, w: World, fields: seq<Field>, trailer: Option<string>,
                                          index: nat, total: nat)
    requires OpensOne(step, session)
    ensures var run := FieldLoop(step, w, fields, trailer, index, total);
            Opens(run.effects) <= Inits(session, fields, index) &&
            (run.result.Ok? ==> Opens(run.effects) == Inits(session, fields, index))
    decreases |fields|
  {
    if fields != [] {
      var first := step(w, fields[0], index + 1);
      if first.result.Ok? {
        var rest := FieldLoop(step, first.world, fields[1..], trailer, index + 1, total + first.result.value);
        FieldLoopOpens(step, session, first.world, fields[1..], trailer, index + 1, total + first.result.value);
        TraceAppend(first.effects, rest.effects);
      } else {
        assert Opens(first.effects) == Inits(session, fields, index)[..1];
      }
    } else {
      assert Opens([]) == [];
    }
  }

  /** On success, the field loop's result is `total` plus the bytes it copied. */
  lemma {:induction false} FieldLoopCopied(step: FieldStepFn, w: World, fields: seq<Field>, trailer: Option<string>,
                                           index: nat, total: nat)
    requires CountsCopies(step)
    ensures var run := FieldLoop(step, w, fields, trailer, index, total);
            run.result.Ok? ==> run.result.value == total + Copied(run.effects)
    decreases |fields|
  {
    if fields != [] {
      var first := step(w, fields[0], index + 1);
      if first.result.Ok? {
        var rest := FieldLoop(step, first.world, fields[1..], trailer, index + 1, total + first.result.value);
        FieldLoopCopied(step, first.world, fields[1..], trailer, index + 1, total + first.result.value);
        TraceAppend(first.effects, rest.effects);
      }
    }
  }

  /** The field loop makes only per-field calls. */
  lemma {:induction false} FieldLoopStaysInField(step: FieldStepFn, w: World, fields: seq<Field>, trailer: Option<string>,
                                                 index: nat, total: nat)
    requires StaysInField(step)
    ensures var run := FieldLoop(step, w, fields, trailer, index, total);
            FieldEffects(run.effects)
    decreases |fields|
  {
    if fields != [] {
      var first := step(w, fields[0], index + 1);
      if first.result.Ok? {
        var rest := FieldLoop(step, first.world, fields[1..], trailer, index + 1, total + first.result.value);
        FieldLoopStaysInField(step, first.world, fields[1..], trailer, index + 1, total + first.result.value);
        var all := first.effects + rest.effects;
        forall k | 0 <= k < |all|
          ensures FieldEffect(all[k])
        {
          if k < |first.effects| {
            assert all[k] == first.effects[k];
          } else {
            assert all[k] == rest.effects[k - |first.effects|];
          }
        }
      }
    }
  }

  /** After `i` fields, `done` are the calls made so far and the rest of the loop runs from `cur`. */
  ghost predicate LoopAt(step: FieldStepFn, w0: World, fields: seq<Field>, trailer: Option<string>, i: nat, total: nat,
                         done: seq<Effect>, cur: World)
    requires i <= |fields|
  {
    FieldLoop(step, w0, fields, trailer, 0, 0) == Prepend(done, FieldLoop(step, cur, fields[i..], trailer, i, total))
  }

  /** One more field stored: on success the loop goes on from the new world, on failure it ends there. */
  lemma FieldLoopAdvance(step: FieldStepFn, w0: World, fields: seq<Field>, trailer: Option<string>, i: nat, total: nat,
                         done: seq<Effect>, before: World, after: World, result: Result<nat, AppError>, effects: seq<Effect>)
    requires i < |fields|
    requires LoopAt(step, w0, fields, trailer, i, total, done, before)
    requires Run(after, result, effects) == step(before, fields[i], i + 1)
    ensures result.Err? ==> FieldLoop(step, w0, fields, trailer, 0, 0) == Run(after, result, done + effects)
    ensures result.Ok? ==> LoopAt(step, w0, fields, trailer, i + 1, total + result.value, done + effects, after)
  {
    assert fields[i..][1..] == fields[i + 1..];
    assert fields[i..][0] == fields[i];
    if result.Ok? {
      PrependPrepend(done, effects, FieldLoop(step, after, fields[i + 1..], trailer, i + 1, total + result.value));
    }
  }

  /** At the end of the fields, the loop's outcome is the framing error or the total. */
  lemma FieldLoopEnd(step: FieldStepFn, w0: World, fields: seq<Field>, trailer: Option<string>, total: nat,
                     done: seq<Effect>, cur: World)
    requires LoopAt(step, w0, fields, trailer, |fields|, total, done, cur)
    ensures FieldLoop(step, w0, fields, trailer, 0, 0) ==
            Run(cur, if trailer.Some? then Err(FromMultipartError(trailer.value)) else Ok(total), done)
  {
    assert fields[|fields|..] == [];
  }

  /** The field loop, on the database and the disk. */
  method UploadFields(db: Db, disk: Disk, u: LocalFsUploader, session: Token, mp: Multipart, now: Instant, ghost step: FieldStepFn)
    returns (r: Result<nat, AppError>, ghost effects: seq<Effect>)
    requires db.Valid()
    requires StepFits(step, u, session, now)
    modifies db, disk
    ensures db.Valid()
    ensures var run := FieldLoop(step, World(old(db.State()), old(disk.State())), mp.fields, mp.trailer, 0, 0);
            r == run.result && effects == run.effects && db.State() == run.world.ledger && disk.State() == run.world.fs
  {
    ghost var w0 := World(db.State(), disk.State());
    effects := [];
    var total: nat := 0;
    var i := 0;
    while i < |mp.fields|
      invariant 0 <= i <= |mp.fields|
      invariant db.Valid()
      invariant LoopAt(step, w0, mp.fields, mp.trailer, i, total, effects, World(db.State(), disk.State()))
    {
      ghost var before := World(db.State(), disk.State());
      var copied, stepEffects := UploadField(db, disk, u, session, mp.fields[i], i + 1, now, step);
      FieldLoopAdvance(step, w0, mp.fields, mp.trailer, i, total, effects, before, World(db.State(), disk.State()), copied, stepEffects);
      if copied.Err? {
        effects := effects + stepEffects;
        return Err(copied.error), effects;
      }
      assert LoopAt(step, w0, mp.fields, mp.trailer, i + 1, total + copied.value, effects + stepEffects, World(db.State(), disk.State()));
      effects := effects + stepEffects;
      total := total + copied.value;
      i := i + 1;
    }
    FieldLoopEnd(step, w0, mp.fields, mp.trailer, total, effects, World(db.State(), disk.State()));
    if mp.trailer.Some? {
      r := Err(FromMultipartError(mp.trailer.value));
    } else {
      r := Ok(total);
    }
  }

  /** `post_upload_form` on the database and the disk; `path` is the already url-decoded token path. */
  method PostUploadForm(db: Db, disk: Disk, u: LocalFsUploader, path: string, mp: Multipart, now: Instant)
    returns (r: Result<Page, AppError>, ghost effects: seq<Effect>)
    requires db.Valid()
    modifies db, disk
    ensures db.Valid()
    ensures var run := PostUploadSpec(World(old(db.State()), old(disk.State())), u, path, mp, now);
            r == run.result && effects == run.effects && db.State() == run.world.ledger && disk.State() == run.world.fs
  {
    var found := GetToken(db.State(), path, now);
    if !found.FreshToken? {
      return Ok(NoLinkFoundPage), [];
    }
    var started := db.InitiateUpload(found.token, now);
    if started.Err? {
      return Err(started.error), [InitiateUpload(found.token.id)];
    }
    var session := started.value;
    var stored;
    ghost var fieldEffects;
    stored, fieldEffects := UploadFields(db, disk, u, session, mp, now, StepOf(u, session, now));
    effects := [InitiateUpload(found.token.id)] + fieldEffects;
    if stored.Err? {
      return Err(stored.error), effects;
    }
    if stored.value > 0 {
      db.FinaliseTokenUpload(session, now);
      effects := effects + [FinaliseToken(session.id, session.attemptCounter)];
    }
    r := Ok(RedirectTo(FilesPage(path)));
  }

  /** Whether `es` finalises a token. */
  predicate FinalisesToken(es: seq<Effect>)
  {
    exists k :: 0 <= k < |es| && es[k].FinaliseToken?
  }

  /** A missing or already used token is answered with the "no link" page, and nothing is called or changed. */
  lemma PostUploadRejects(w: World, u: LocalFsUploader, path: string, mp: Multipart, now: Instant)
    requires !GetToken(w.ledger, path, now).FreshToken?
    ensures PostUploadSpec(w, u, path, mp, now) == Run(w, Ok(NoLinkFoundPage), [])
  {
  }

  /**
   * With a fresh token, the first call is `initiate_upload` for that token and it is
   * never called again; when it fails nothing else happens; otherwise the blobs are
   * opened for the fields in stream order, numbered from 1 and carrying the token id
   * and the attempt counter `initiate_upload` returned, every field on success.
   */
  lemma PostUploadCalls(w: World, u: LocalFsUploader, path: string, mp: Multipart, now: Instant)
    requires GetToken(w.ledger, path, now).FreshToken?
    ensures var t := GetToken(w.ledger, path, now).token;
            var started := InitiateUploadSpec(w.ledger, t, now).1;
            var run := PostUploadSpec(w, u, path, mp, now);
            |run.effects| >= 1 && run.effects[0] == InitiateUpload(t.id) &&
            (forall k :: 1 <= k < |run.effects| ==> !run.effects[k].InitiateUpload?) &&
            (started.Err? ==> run.effects == [InitiateUpload(t.id)] && run.result == Err(started.error)) &&
            (started.Ok? ==> started.value.id == t.id && Opens(run.effects) <= Inits(started.value, mp.fields, 0) &&
                             (run.result.Ok? ==> Opens(run.effects) == Inits(started.value, mp.fields, 0)))
  {
    var t := GetToken(w.ledger, path, now).token;
    var (ls1, started) := InitiateUploadSpec(w.ledger, t, now);
    if started.Ok? {
      var session := started.value;
      var step := StepOf(u, session, now);
      var fields := FieldsSpec(World(ls1, w.fs), u, session, mp, now);
      StepOfWellBehaved(u, session, now);
      FieldLoopOpens(step, session, World(ls1, w.fs), mp.fields, mp.trailer, 0, 0);
      FieldLoopStaysInField(step, World(ls1, w.fs), mp.fields, mp.trailer, 0, 0);
      var fin := if fields.result.Ok? && fields.result.value != 0 then [FinaliseToken(session.id, session.attemptCounter)] else [];
      InitiateThenFields(t.id, fields.effects, fin);
      assert [InitiateUpload(t.id)] + fields.effects + [] == [InitiateUpload(t.id)] + fields.effects;
    }
  }

  /** The calls of a session: `initiate_upload` once, first; the field calls, which open the blobs; perhaps the finalisation. */
  lemma InitiateThenFields(tokenId: int, fieldCalls: seq<Effect>, fin: seq<Effect>)
    requires FieldEffects(fieldCalls)
    requires forall k :: 0 <= k < |fin| ==> fin[k].FinaliseToken?
    ensures var es := [InitiateUpload(tokenId)] + fieldCalls + fin;
            es[0] == InitiateUpload(tokenId) && (forall k :: 1 <= k < |es| ==> !es[k].InitiateUpload?) &&
            Opens(es) == Opens(fieldCalls)
  {
    var head := [InitiateUpload(tokenId)];
    var es := head + fieldCalls + fin;
    assert forall k :: 1 <= k < |es| ==> es[k] == if k <= |fieldCalls| then fieldCalls[k - 1] else fin[k - 1 - |fieldCalls|];
    TraceAppend(head, fieldCalls);
    TraceAppend(head + fieldCalls, fin);
    NoOpens(head);
    NoOpens(fin);
  }

  /**
   * The token is finalised exactly when the upload succeeds and copied some bytes; the
   * finalisation is then the last call made.
   */
  lemma PostUploadFinalisesIff(w: World, u: LocalFsUploader, path: string, mp: Multipart, now: Instant)
    ensures var run := PostUploadSpec(w, u, path, mp, now);
            (FinalisesToken(run.effects) <==> run.result.Ok? && Copied(run.effects) > 0) &&
            (FinalisesToken(run.effects) ==> run.effects[|run.effects| - 1].FinaliseToken?)
  {
    var run := PostUploadSpec(w, u, path, mp, now);
    var found := GetToken(w.ledger, path, now);
    if found.FreshToken? {
      var t := found.token;
      var (ls1, started) := InitiateUploadSpec(w.ledger, t, now);
      if started.Ok? {
        var session := started.value;
        var step := StepOf(u, session, now);
        var fields := FieldsSpec(World(ls1, w.fs), u, session, mp, now);
        StepOfWellBehaved(u, session, now);
        FieldLoopCopied(step, World(ls1, w.fs), mp.fields, mp.trailer, 0, 0);
        FieldLoopStaysInField(step, World(ls1, w.fs), mp.fields, mp.trailer, 0, 0);
        var es := [InitiateUpload(t.id)] + fields.effects;
        TraceAppend([InitiateUpload(t.id)], fields.effects);
        assert forall k :: 1 <= k < |es| ==> es[k] == fields.effects[k - 1];
        assert !FinalisesToken(es);
        if fields.result.Ok? && fields.result.value != 0 {
          var fin := [FinaliseToken(session.id, session.attemptCounter)];
          TraceAppend(es, fin);
          assert (es + fin)[|es|].FinaliseToken?;
        }
      } else {
        assert !FinalisesToken(run.effects);
      }
    } else {
      assert !FinalisesToken(run.effects);
    }
  }
}
