/**
 * The token/file ledger: the `token` and `file` tables and the operations on them.
 *
 * `GetValidTokenAsCoded` and `Db.CreateToken` follow the queries written out in
 * src/db.rs. The other operations (`GetToken`, `InitiateUpload`, `CreateFile`,
 * `FinaliseFileUpload`, `FinaliseTokenUpload`, `DeleteFiles`, `FilesToDelete`,
 * `DeleteExpiredTokens`, `GetValidFile`, `GetFiles`) are called by the handlers and
 * the sweeper but their SQL is not part of this model; they are given the behaviour
 * the handlers and the sweeper rely on, which each contract states.
 *
 * Instants are whole seconds.
 */
module Ledger {
  import opened Wrappers
  import opened Errors
  import opened BlobStore

  type Instant = int

  datatype Token = Token(
    id: int,
    path: string,
    maxSizeMib: Option<int>,
    validUntil: Instant,
    createdAt: Instant,
    contentExpiresAfterHours: Option<int>,
    deletedAt: Option<Instant>,
    attemptCounter: int,
    usedAt: Option<Instant>,
    contentExpiresAt: Option<Instant>)

  datatype DbFile = DbFile(
    id: int,
    tokenId: int,
    attemptCounter: int,
    mimeType: Option<string>,
    name: Option<string>,
    backendType: string,
    backendData: BackendData,
    createdAt: Instant,
    completedAt: Option<Instant>)

  /** Both tables, with the next identity each will hand out. */
  datatype LedgerState = LedgerState(tokens: seq<Token>, files: seq<DbFile>, nextTokenId: int, nextFileId: int)

  /** Every row's identity was handed out before the next one. */
  predicate WellFormed(ls: LedgerState)
  {
    (forall k :: 0 <= k < |ls.tokens| ==> ls.tokens[k].id < ls.nextTokenId) &&
    (forall k :: 0 <= k < |ls.files| ==> ls.files[k].id < ls.nextFileId)
  }

  /** No two rows of the token table share a path unless at least one of them is deleted. */
  predicate OneUndeletedPerPath(tokens: seq<Token>)
  {
    forall i, j :: 0 <= i < j < |tokens| && tokens[i].path == tokens[j].path ==>
      tokens[i].deletedAt.Some? || tokens[j].deletedAt.Some?
  }

  /** The elements of `s` that satisfy `p`, in their order. */
  function Filter<T(!new)>(s: seq<T>, p: T -> bool): (r: seq<T>)
    ensures |r| <= |s|
    ensures forall x :: x in r <==> x in s && p(x)
    ensures forall k :: 0 <= k < |r| ==> p(r[k])
  {
    if s == [] then [] else (if p(s[0]) then [s[0]] else []) + Filter(s[1..], p)
  }

  // ---------------------------------------------------------------------------
  // src/db.rs, as coded

  /** `CreateToken`: what the token generation form asks for. */
  datatype CreateToken = CreateToken(path: string, maxSizeMib: Option<int>, validUntil: Instant, contentExpiresAfterHours: Option<int>)

  datatype TokenError = AlreadyExist

  datatype ValidToken = Fresh(token: Token)

  /** The row filter of the query in src/db.rs: `path = ? AND (deleted_at IS NULL OR valid_until < now)`. */
  predicate ValidAsCoded(t: Token, path: string, now: Instant)
  {
    t.path == path && (t.deletedAt.None? || t.validUntil < now)
  }

  /** The query with `LIMIT 1`: a matching row, if any (there is no `ORDER BY`, so which one is not promised). */
  function GetValidTokenAsCoded(tokens: seq<Token>, path: string, now: Instant): (r: Option<Token>)
    ensures r.Some? ==> r.value in tokens && ValidAsCoded(r.value, path, now) && r.value.path == path
    ensures r.None? <==> forall k :: 0 <= k < |tokens| ==> !ValidAsCoded(tokens[k], path, now)
  {
    if tokens == [] then None
    else if ValidAsCoded(tokens[0], path, now) then Some(tokens[0])
    else GetValidTokenAsCoded(tokens[1..], path, now)
  }

  /** The row `INSERT ... RETURNING *` produces: a fresh identity, column defaults for the rest. */
  function InsertedToken(ls: LedgerState, ct: CreateToken, now: Instant): (t: Token)
    ensures t.path == ct.path && t.maxSizeMib == ct.maxSizeMib && t.validUntil == ct.validUntil
    ensures t.contentExpiresAfterHours == ct.contentExpiresAfterHours
    ensures t.deletedAt.None? && t.usedAt.None? && t.contentExpiresAt.None? && t.attemptCounter == 0
    ensures t.id == ls.nextTokenId
  {
    Token(ls.nextTokenId, ct.path, ct.maxSizeMib, ct.validUntil, now, ct.contentExpiresAfterHours, None, 0, None, None)
  }

  /**
   * `DBService::create_token` on ledger values: inside one transaction, refuse when a
   * valid token exists for the path, otherwise insert exactly one row and return it.
   */
  function CreateTokenSpec(ls: LedgerState, ct: CreateToken, now: Instant): (out: (LedgerState, Result<Token, TokenError>))
    ensures GetValidTokenAsCoded(ls.tokens, ct.path, now).Some? <==> out.1 == Err(AlreadyExist)
    ensures out.1.Err? ==> out.0 == ls
    ensures out.1.Ok? ==> out.0.tokens == ls.tokens + [out.1.value] && out.0.files == ls.files
    ensures out.1.Ok? ==> out.1.value == InsertedToken(ls, ct, now) && out.0.nextTokenId == ls.nextTokenId + 1
    ensures WellFormed(ls) ==> WellFormed(out.0)
    ensures OneUndeletedPerPath(ls.tokens) ==> OneUndeletedPerPath(out.0.tokens)
  {
    if GetValidTokenAsCoded(ls.tokens, ct.path, now).Some? then (ls, Err(AlreadyExist))
    else
      var t := InsertedToken(ls, ct, now);
      (ls.(tokens := ls.tokens + [t], nextTokenId := ls.nextTokenId + 1), Ok(t))
  }

  /** After a successful creation for a path, creating again for that path is refused, at any later time. */
  lemma {:induction false} CreateTwiceRefused(ls: LedgerState, ct: CreateToken, ct2: CreateToken, now: Instant, later: Instant)
    requires CreateTokenSpec(ls, ct, now).1.Ok?
    requires ct2.path == ct.path
    ensures CreateTokenSpec(CreateTokenSpec(ls, ct, now).0, ct2, later).1 == Err(AlreadyExist)
  {
    var ls1 := CreateTokenSpec(ls, ct, now).0;
    var t := InsertedToken(ls, ct, now);
    assert ls1.tokens[|ls1.tokens| - 1] == t;
    assert ValidAsCoded(t, ct2.path, later);
  }

  /** Creating a token for one path changes what the query finds for no other path. */
  lemma {:induction false} CreateTokenOtherPaths(ls: LedgerState, ct: CreateToken, now: Instant, q: string, at: Instant)
    requires q != ct.path
    ensures GetValidTokenAsCoded(CreateTokenSpec(ls, ct, now).0.tokens, q, at) == GetValidTokenAsCoded(ls.tokens, q, at)
  {
    var out := CreateTokenSpec(ls, ct, now);
    if out.1.Ok? {
      QueryIgnoresOtherPaths(ls.tokens, out.1.value, q, at);
    }
  }

  lemma {:induction false} QueryIgnoresOtherPaths(tokens: seq<Token>, t: Token, q: string, at: Instant)
    requires t.path != q
    ensures GetValidTokenAsCoded(tokens + [t], q, at) == GetValidTokenAsCoded(tokens, q, at)
  {
    if tokens == [] {
      assert ([t])[1..] == [];
    } else {
      assert (tokens + [t])[1..] == tokens[1..] + [t];
      QueryIgnoresOtherPaths(tokens[1..], t, q, at);
    }
  }

  /**
   * What the coded filter means in practice: a token nobody deleted stays valid after its
   * `valid_until`, and a deleted token whose `valid_until` has passed counts as valid too.
   */
  lemma AsCodedIgnoresExpiry(t: Token, now: Instant)
    ensures t.deletedAt.None? && t.validUntil <= now ==> ValidAsCoded(t, t.path, now)
    ensures t.deletedAt.Some? && t.validUntil < now ==> ValidAsCoded(t, t.path, now)
    ensures t.deletedAt.Some? && t.validUntil >= now ==> !ValidAsCoded(t, t.path, now)
  {
  }

  // ---------------------------------------------------------------------------
  // Operations whose SQL is not shown: the behaviour their callers rely on

  /** A token that still matters for its path: not deleted, and either still open for upload or its content not expired. */
  predicate Live(t: Token, now: Instant)
  {
    t.deletedAt.None? && (t.validUntil > now || t.contentExpiresAt.None? || t.contentExpiresAt.value > now)
  }

  /** The token's uploaded content is still kept: it has no retention deadline, or that deadline is ahead. */
  predicate ContentLive(t: Token, now: Instant)
  {
    t.contentExpiresAt.None? || t.contentExpiresAt.value > now
  }

  datatype GetTokenResult = NoToken | FreshToken(token: Token) | UsedToken(token: Token)

  function FirstLive(tokens: seq<Token>, path: string, now: Instant): (r: Option<Token>)
    ensures r.Some? ==> r.value in tokens && r.value.path == path && Live(r.value, now)
    ensures r.None? <==> forall k :: 0 <= k < |tokens| ==> !(tokens[k].path == path && Live(tokens[k], now))
  {
    if tokens == [] then None
    else if tokens[0].path == path && Live(tokens[0], now) then Some(tokens[0])
    else FirstLive(tokens[1..], path, now)
  }

  /**
   * The three-way classification the handlers use, on the first live token for the
   * path: fresh when never used, used when used and its content not expired, and
   * no token when there is no live one or the first one's content has expired.
   */
  function GetToken(ls: LedgerState, path: string, now: Instant): (r: GetTokenResult)
    ensures (forall k :: 0 <= k < |ls.tokens| ==> !(ls.tokens[k].path == path && Live(ls.tokens[k], now))) ==> r.NoToken?
    ensures r.NoToken? <==> FirstLive(ls.tokens, path, now).None? ||
                            (FirstLive(ls.tokens, path, now).value.usedAt.Some? && !ContentLive(FirstLive(ls.tokens, path, now).value, now))
    ensures r.FreshToken? ==> r.token in ls.tokens && r.token.path == path && Live(r.token, now) && r.token.usedAt.None?
    ensures r.UsedToken? ==> r.token in ls.tokens && r.token.path == path && r.token.deletedAt.None? &&
                             r.token.usedAt.Some? && ContentLive(r.token, now)
  {
    match FirstLive(ls.tokens, path, now)
    case None => NoToken
    case Some(t) =>
      if t.usedAt.None? then FreshToken(t)
      else if ContentLive(t, now) then UsedToken(t)
      else NoToken
  }

  /** The intended invariant: for each path, at most one row of the token table is live at any instant. */
  predicate AtMostOneLive(tokens: seq<Token>, now: Instant)
  {
    forall i, j ::
      0 <= i < |tokens| && 0 <= j < |tokens| && tokens[i].path == tokens[j].path && Live(tokens[i], now) && Live(tokens[j], now)
      ==> i == j
  }

  /** A live row is an undeleted one, so a table with one undeleted row per path has at most one live row per path. */
  lemma OneLivePerPath(tokens: seq<Token>, now: Instant)
    requires OneUndeletedPerPath(tokens)
    ensures AtMostOneLive(tokens, now)
  {
  }

  /** With one undeleted row per path, the first live row of the path of an undeleted row `tokens[k]` is that row, while it is live. */
  lemma {:induction false} FirstLiveIsTheUndeleted(tokens: seq<Token>, k: nat, now: Instant)
    requires OneUndeletedPerPath(tokens)
    requires k < |tokens| && tokens[k].deletedAt.None?
    ensures FirstLive(tokens, tokens[k].path, now) == if Live(tokens[k], now) then Some(tokens[k]) else None
  {
    var path := tokens[k].path;
    if Live(tokens[k], now) {
      assert tokens[k].path == path && Live(tokens[k], now);
    }
    match FirstLive(tokens, path, now)
    case None =>
    case Some(u) =>
      var j :| 0 <= j < |tokens| && tokens[j] == u;
      assert j == k;
  }

  /**
   * The life of a used token as `get_token` sees it: while it is not deleted (so, with
   * the table's invariant, the only undeleted token of its path), it is reported as used
   * until its content expires, and as no token from then on, whatever its `valid_until`.
   */
  lemma UsedTokenLifetime(ls: LedgerState, t: Token, now: Instant)
    requires t in ls.tokens && t.deletedAt.None? && t.usedAt.Some?
    requires OneUndeletedPerPath(ls.tokens)
    ensures GetToken(ls, t.path, now) == if ContentLive(t, now) then UsedToken(t) else NoToken
  {
    var k :| 0 <= k < |ls.tokens| && ls.tokens[k] == t;
    FirstLiveIsTheUndeleted(ls.tokens, k, now);
  }

  function TokenIndex(tokens: seq<Token>, id: int): (r: Option<nat>)
    ensures r.Some? ==> r.value < |tokens| && tokens[r.value].id == id
    ensures r.Some? ==> forall k :: 0 <= k < r.value ==> tokens[k].id != id
    ensures r.None? <==> forall k :: 0 <= k < |tokens| ==> tokens[k].id != id
  {
    if tokens == [] then None
    else if tokens[0].id == id then Some(0)
    else match TokenIndex(tokens[1..], id)
      case None => None
      case Some(k) => Some(k + 1)
  }

  /** The narrower check `initiate_upload` applies: not deleted, still inside `valid_until`, never used. */
  predicate Uploadable(t: Token, now: Instant)
  {
    t.deletedAt.None? && t.validUntil > now && t.usedAt.None?
  }

  /**
   * `initiate_upload`: re-read the token by id; when it is still uploadable, bump its
   * attempt counter and return the updated row, otherwise `NoTokenFound`.
   */
  function InitiateUploadSpec(ls: LedgerState, token: Token, now: Instant): (out: (LedgerState, Result<Token, AppError>))
    ensures out.1.Ok? <==> TokenIndex(ls.tokens, token.id).Some? && Uploadable(ls.tokens[TokenIndex(ls.tokens, token.id).value], now)
    ensures out.1.Err? ==> out.0 == ls && out.1.error.NoTokenFound?
    ensures out.1.Ok? ==> var k := TokenIndex(ls.tokens, token.id).value;
      out.1.value.id == token.id && out.1.value.attemptCounter == ls.tokens[k].attemptCounter + 1 &&
      out.1.value == ls.tokens[k].(attemptCounter := ls.tokens[k].attemptCounter + 1) &&
      out.0 == ls.(tokens := ls.tokens[k := out.1.value])
    ensures WellFormed(ls) ==> WellFormed(out.0)
    ensures OneUndeletedPerPath(ls.tokens) ==> OneUndeletedPerPath(out.0.tokens)
  {
    match TokenIndex(ls.tokens, token.id)
    case None => (ls, Err(NoTokenFound("token vanished before upload")))
    case Some(k) =>
      var t := ls.tokens[k];
      if !Uploadable(t, now) then (ls, Err(NoTokenFound("token no longer valid for upload")))
      else
        var t' := t.(attemptCounter := t.attemptCounter + 1);
        (ls.(tokens := ls.tokens[k := t']), Ok(t'))
  }

  /** `create_file`: a new, not yet completed row stamped with the session's token id and attempt counter. */
  function CreateFileSpec(ls: LedgerState, session: Token, backendType: string, data: BackendData,
                          mimeType: Option<string>, name: Option<string>, now: Instant): (out: (LedgerState, DbFile))
    ensures out.1.id == ls.nextFileId && out.1.tokenId == session.id && out.1.attemptCounter == session.attemptCounter
    ensures out.1.completedAt.None? && out.1.backendType == backendType && out.1.backendData == data
    ensures out.1.mimeType == mimeType && out.1.name == name
    ensures out.0 == ls.(files := ls.files + [out.1], nextFileId := ls.nextFileId + 1)
    ensures WellFormed(ls) ==> WellFormed(out.0)
  {
    var f := DbFile(ls.nextFileId, session.id, session.attemptCounter, mimeType, name, backendType, data, now, None);
    (ls.(files := ls.files + [f], nextFileId := ls.nextFileId + 1), f)
  }

  /** A row once its upload is complete: `completed_at` stamped, the locator replaced when the backend returned a new one. */
  function Completed(f: DbFile, updated: Option<BackendData>, now: Instant): DbFile
  {
    f.(completedAt := Some(now), backendData := if updated.Some? then updated.value else f.backendData)
  }

  /** `files` with every row whose id is `id` completed. */
  function CompleteRows(files: seq<DbFile>, id: int, updated: Option<BackendData>, now: Instant): (r: seq<DbFile>)
    ensures |r| == |files|
    ensures forall k :: 0 <= k < |files| ==> r[k] == if files[k].id == id then Completed(files[k], updated, now) else files[k]
  {
    if files == [] then []
    else [if files[0].id == id then Completed(files[0], updated, now) else files[0]] + CompleteRows(files[1..], id, updated, now)
  }

  /** `finalise_file_upload`: complete the row of `file`; nothing else changes. */
  function FinaliseFileSpec(ls: LedgerState, file: DbFile, updated: Option<BackendData>, now: Instant): (ls': LedgerState)
    ensures ls'.tokens == ls.tokens && ls'.nextTokenId == ls.nextTokenId && ls'.nextFileId == ls.nextFileId
    ensures |ls'.files| == |ls.files|
    ensures forall k :: 0 <= k < |ls.files| && ls.files[k].id != file.id ==> ls'.files[k] == ls.files[k]
    ensures forall k :: 0 <= k < |ls.files| && ls.files[k].id == file.id ==> ls'.files[k] == Completed(ls.files[k], updated, now)
    ensures WellFormed(ls) ==> WellFormed(ls')
  {
    ls.(files := CompleteRows(ls.files, file.id, updated, now))
  }

  /** When content stops being served: `hours * 3600` seconds after the upload, or never. */
  function ContentExpiry(hours: Option<int>, now: Instant): (r: Option<Instant>)
    ensures r.Some? <==> hours.Some?
    ensures hours.Some? ==> r.value == now + hours.value * 3600
  {
    match hours
    case None => None
    case Some(h) => Some(now + h * 3600)
  }

  /**
   * `finalise_token_upload`: mark the token used and compute its content deadline, but
   * only on the row whose id and attempt counter both match the session's.
   */
  function FinaliseTokenSpec(ls: LedgerState, session: Token, now: Instant): (ls': LedgerState)
    ensures ls'.files == ls.files && ls'.nextTokenId == ls.nextTokenId && ls'.nextFileId == ls.nextFileId
    ensures |ls'.tokens| == |ls.tokens|
    ensures forall k :: 0 <= k < |ls.tokens| ==>
      var t := ls.tokens[k];
      ls'.tokens[k] == if t.id == session.id && t.attemptCounter == session.attemptCounter
                       then t.(usedAt := Some(now), contentExpiresAt := ContentExpiry(t.contentExpiresAfterHours, now))
                       else t
    ensures WellFormed(ls) ==> WellFormed(ls')
    ensures OneUndeletedPerPath(ls.tokens) ==> OneUndeletedPerPath(ls'.tokens)
  {
    ls.(tokens := seq(|ls.tokens|, k requires 0 <= k < |ls.tokens| =>
      var t := ls.tokens[k];
      if t.id == session.id && t.attemptCounter == session.attemptCounter
      then t.(usedAt := Some(now), contentExpiresAt := ContentExpiry(t.contentExpiresAfterHours, now))
      else t))
  }

  /** A session whose attempt was superseded by a newer `initiate_upload` finalises nothing. */
  lemma StaleSessionFinalisesNothing(ls: LedgerState, session: Token, now: Instant)
    requires forall k :: 0 <= k < |ls.tokens| && ls.tokens[k].id == session.id ==> ls.tokens[k].attemptCounter != session.attemptCounter
    ensures FinaliseTokenSpec(ls, session, now) == ls
  {
    var ls' := FinaliseTokenSpec(ls, session, now);
    assert ls'.tokens == ls.tokens;
  }

  /** `delete_files`: remove every file row whose id is listed, keeping the others in order. */
  function DeleteFilesSpec(ls: LedgerState, ids: seq<int>): (ls': LedgerState)
    ensures ls'.files == Filter(ls.files, (f: DbFile) => f.id !in ids)
    ensures ls'.tokens == ls.tokens && ls'.nextTokenId == ls.nextTokenId && ls'.nextFileId == ls.nextFileId
    ensures forall f :: f in ls'.files <==> f in ls.files && f.id !in ids
    ensures WellFormed(ls) ==> WellFormed(ls')
  {
    var keep := Filter(ls.files, (f: DbFile) => f.id !in ids);
    assert forall k :: 0 <= k < |keep| ==> keep[k] in ls.files;
    ls.(files := keep)
  }

  /** Filtering distributes over appending one element. */
  lemma {:induction false} FilterAppend<T(!new)>(s: seq<T>, x: T, p: T -> bool)
    ensures Filter(s + [x], p) == Filter(s, p) + (if p(x) then [x] else [])
  {
    if s != [] {
      assert (s + [x])[1..] == s[1..] + [x];
      FilterAppend(s[1..], x, p);
    }
  }

  /** Filtering keeps a sequence whose every element passes. */
  lemma {:induction false} FilterAll<T(!new)>(s: seq<T>, p: T -> bool)
    requires forall k :: 0 <= k < |s| ==> p(s[k])
    ensures Filter(s, p) == s
  {
    if s != [] {
      FilterAll(s[1..], p);
    }
  }

  /** The rows after the first of a table with one undeleted row per path keep that property. */
  lemma OneUndeletedTail(s: seq<Token>)
    requires s != [] && OneUndeletedPerPath(s)
    ensures OneUndeletedPerPath(s[1..])
  {
    forall i, j | 0 <= i < j < |s[1..]| && s[1..][i].path == s[1..][j].path
      ensures s[1..][i].deletedAt.Some? || s[1..][j].deletedAt.Some?
    {
      assert s[1..][i] == s[i + 1] && s[1..][j] == s[j + 1];
    }
  }

  /** Putting a row in front of a table keeps one undeleted row per path when the row clashes with none of the table's. */
  lemma OneUndeletedCons(x: Token, r: seq<Token>)
    requires OneUndeletedPerPath(r)
    requires forall y :: y in r && y.path == x.path ==> x.deletedAt.Some? || y.deletedAt.Some?
    ensures OneUndeletedPerPath([x] + r)
  {
    var xr := [x] + r;
    forall i, j | 0 <= i < j < |xr| && xr[i].path == xr[j].path
      ensures xr[i].deletedAt.Some? || xr[j].deletedAt.Some?
    {
      assert xr[j] == r[j - 1];
      if i > 0 {
        assert xr[i] == r[i - 1];
      }
    }
  }

  /** Dropping rows from a token table keeps the rows left without a second undeleted row on any path. */
  lemma {:induction false} FilterKeepsOneUndeleted(s: seq<Token>, p: Token -> bool)
    ensures OneUndeletedPerPath(s) ==> OneUndeletedPerPath(Filter(s, p))
  {
    if s != [] && OneUndeletedPerPath(s) {
      var rest := Filter(s[1..], p);
      OneUndeletedTail(s);
      FilterKeepsOneUndeleted(s[1..], p);
      if p(s[0]) {
        forall y | y in rest && y.path == s[0].path
          ensures s[0].deletedAt.Some? || y.deletedAt.Some?
        {
          var m :| 0 <= m < |s[1..]| && s[1..][m] == y;
          assert s[m + 1] == y;
        }
        OneUndeletedCons(s[0], rest);
      }
    }
  }

  /** Deleting the row just created restores the file table it was added to. */
  lemma DeleteNewestRow(ls: LedgerState, row: DbFile)
    requires WellFormed(ls)
    requires row.id == ls.nextFileId
    ensures DeleteFilesSpec(ls.(files := ls.files + [row], nextFileId := ls.nextFileId + 1), [row.id]).files == ls.files
  {
    var p := (f: DbFile) => f.id !in [row.id];
    FilterAppend(ls.files, row, p);
    FilterAll(ls.files, p);
  }

  /** Why a file is due for deletion: its token's content expired, it belongs to a superseded attempt, or its token was abandoned. */
  predicate DueForDeletion(t: Token, f: DbFile, now: Instant)
  {
    (t.contentExpiresAt.Some? && t.contentExpiresAt.value <= now) ||
    t.attemptCounter > f.attemptCounter ||
    (t.usedAt.None? && t.validUntil <= now)
  }

  /** `get_files_to_delete`: every file whose token (by id) makes it due for deletion. */
  function FilesToDelete(ls: LedgerState, now: Instant): (r: seq<DbFile>)
    ensures forall f :: f in r <==> f in ls.files && TokenIndex(ls.tokens, f.tokenId).Some? &&
                                      DueForDeletion(ls.tokens[TokenIndex(ls.tokens, f.tokenId).value], f, now)
  {
    Filter(ls.files, (f: DbFile) => TokenIndex(ls.tokens, f.tokenId).Some? &&
                                    DueForDeletion(ls.tokens[TokenIndex(ls.tokens, f.tokenId).value], f, now))
  }

  /** Whether `delete_expired_tokens` removes a token: content expired, or never used and past `valid_until`. */
  predicate TokenExpired(t: Token, now: Instant)
  {
    (t.contentExpiresAt.Some? && t.contentExpiresAt.value <= now) || (t.usedAt.None? && t.validUntil <= now)
  }

  /** `delete_expired_tokens`: drop the expired rows and report their ids and paths. */
  function DeleteExpiredTokensSpec(ls: LedgerState, now: Instant): (out: (LedgerState, seq<(int, string)>))
    ensures out.0.tokens == Filter(ls.tokens, (t: Token) => !TokenExpired(t, now))
    ensures forall t :: t in out.0.tokens <==> t in ls.tokens && !TokenExpired(t, now)
    ensures out.0.files == ls.files && out.0.nextTokenId == ls.nextTokenId && out.0.nextFileId == ls.nextFileId
    ensures forall t :: t in ls.tokens && TokenExpired(t, now) ==> (t.id, t.path) in out.1
    ensures WellFormed(ls) ==> WellFormed(out.0)
    ensures OneUndeletedPerPath(ls.tokens) ==> OneUndeletedPerPath(out.0.tokens)
  {
    var gone := Filter(ls.tokens, (t: Token) => TokenExpired(t, now));
    var kept := Filter(ls.tokens, (t: Token) => !TokenExpired(t, now));
    assert forall k :: 0 <= k < |kept| ==> kept[k] in ls.tokens;
    var ids := seq(|gone|, k requires 0 <= k < |gone| => (gone[k].id, gone[k].path));
    assert forall t :: t in ls.tokens && TokenExpired(t, now) ==> (t.id, t.path) in ids by {
      forall t | t in ls.tokens && TokenExpired(t, now)
        ensures (t.id, t.path) in ids
      {
        var k :| 0 <= k < |gone| && gone[k] == t;
        assert ids[k] == (t.id, t.path);
      }
    }
    FilterKeepsOneUndeleted(ls.tokens, (t: Token) => !TokenExpired(t, now));
    (ls.(tokens := kept), ids)
  }

  /** A file may be served when its token matches the path, is used, live and not content-expired, and the file is completed. */
  predicate Servable(ls: LedgerState, f: DbFile, path: string, now: Instant)
  {
    TokenIndex(ls.tokens, f.tokenId).Some? &&
    var t := ls.tokens[TokenIndex(ls.tokens, f.tokenId).value];
    t.path == path && t.usedAt.Some? && Live(t, now) && ContentLive(t, now) && f.completedAt.Some?
  }

  /** `get_valid_file`: the file with that id when it may be served under that token path. */
  function GetValidFile(ls: LedgerState, path: string, fileId: int, now: Instant): (r: Option<DbFile>)
    ensures r.Some? ==> r.value in ls.files && r.value.id == fileId && Servable(ls, r.value, path, now)
    ensures r.None? <==> forall f :: f in ls.files && f.id == fileId ==> !Servable(ls, f, path, now)
  {
    var hits := Filter(ls.files, (f: DbFile) => f.id == fileId && Servable(ls, f, path, now));
    if hits == [] then None else Some(hits[0])
  }

  /**
   * A file is served iff it is completed and its token is in the used state: used,
   * not deleted, on that path and its content not expired. A used token past its
   * retention deadline serves nothing, even while its `valid_until` is ahead.
   */
  lemma GetValidFileIff(ls: LedgerState, path: string, fileId: int, now: Instant)
    ensures GetValidFile(ls, path, fileId, now).Some? <==>
      exists i :: 0 <= i < |ls.files| && ls.files[i].id == fileId && ls.files[i].completedAt.Some? &&
        TokenIndex(ls.tokens, ls.files[i].tokenId).Some? &&
        var t := ls.tokens[TokenIndex(ls.tokens, ls.files[i].tokenId).value];
        t.path == path && t.usedAt.Some? && t.deletedAt.None? && ContentLive(t, now)
  {
    if GetValidFile(ls, path, fileId, now).Some? {
      var f := GetValidFile(ls, path, fileId, now).value;
      var i :| 0 <= i < |ls.files| && ls.files[i] == f;
    }
  }

  /** `get_files`: the completed files of one attempt of one token, in table order. */
  function GetFiles(ls: LedgerState, tokenId: int, attempt: int): (r: seq<DbFile>)
    ensures forall f :: f in r <==> f in ls.files && f.tokenId == tokenId && f.attemptCounter == attempt && f.completedAt.Some?
  {
    Filter(ls.files, (f: DbFile) => f.tokenId == tokenId && f.attemptCounter == attempt && f.completedAt.Some?)
  }

  // ---------------------------------------------------------------------------
  // Every table the operations can reach

  /** One call of a ledger operation, with its arguments. */
  datatype LedgerOp =
    | CreateTokenOp(ct: CreateToken, now: Instant)
    | InitiateUploadOp(token: Token, now: Instant)
    | CreateFileOp(session: Token, backendType: string, data: BackendData, mimeType: Option<string>, name: Option<string>, now: Instant)
    | FinaliseFileOp(file: DbFile, updated: Option<BackendData>, now: Instant)
    | FinaliseTokenOp(session: Token, now: Instant)
    | DeleteFilesOp(ids: seq<int>)
    | DeleteExpiredTokensOp(now: Instant)

  /** The tables after one operation. */
  function Apply(ls: LedgerState, op: LedgerOp): (ls': LedgerState)
    ensures OneUndeletedPerPath(ls.tokens) ==> OneUndeletedPerPath(ls'.tokens)
  {
    match op
    case CreateTokenOp(ct, now) => CreateTokenSpec(ls, ct, now).0
    case InitiateUploadOp(token, now) => InitiateUploadSpec(ls, token, now).0
    case CreateFileOp(session, bt, data, mime, name, now) => CreateFileSpec(ls, session, bt, data, mime, name, now).0
    case FinaliseFileOp(file, updated, now) => FinaliseFileSpec(ls, file, updated, now)
    case FinaliseTokenOp(session, now) => FinaliseTokenSpec(ls, session, now)
    case DeleteFilesOp(ids) => DeleteFilesSpec(ls, ids)
    case DeleteExpiredTokensOp(now) => DeleteExpiredTokensSpec(ls, now).0
  }

  /** The tables after a sequence of operations, in order. */
  function Replay(ls: LedgerState, ops: seq<LedgerOp>): LedgerState
    decreases |ops|
  {
    if ops == [] then ls else Replay(Apply(ls, ops[0]), ops[1..])
  }

  /** Every operation keeps at most one undeleted token per path, so any sequence of them does. */
  lemma {:induction false} ReplayKeepsOneUndeleted(ls: LedgerState, ops: seq<LedgerOp>)
    requires OneUndeletedPerPath(ls.tokens)
    ensures OneUndeletedPerPath(Replay(ls, ops).tokens)
    decreases |ops|
  {
    if ops != [] {
      ReplayKeepsOneUndeleted(Apply(ls, ops[0]), ops[1..]);
    }
  }

  /**
   * The intended invariant on every reachable table: starting from empty tables, whatever
   * operations run, each path has at most one live token at any instant.
   */
  lemma ReachableAtMostOneLive(ops: seq<LedgerOp>, now: Instant)
    ensures AtMostOneLive(Replay(LedgerState([], [], 0, 0), ops).tokens, now)
  {
    ReplayKeepsOneUndeleted(LedgerState([], [], 0, 0), ops);
    OneLivePerPath(Replay(LedgerState([], [], 0, 0), ops).tokens, now);
  }

  // ---------------------------------------------------------------------------
  // The database object

  /** The database the handlers and the sweeper share; every operation changes its tables in place. */
  class Db {
    var tokens: seq<Token>
    var files: seq<DbFile>
    var nextTokenId: int
    var nextFileId: int

    function State(): LedgerState
      reads this
    {
      LedgerState(tokens, files, nextTokenId, nextFileId)
    }

    ghost predicate Valid()
      reads this
    {
      WellFormed(State()) && OneUndeletedPerPath(tokens)
    }

    constructor (ls: LedgerState)
      requires WellFormed(ls) && OneUndeletedPerPath(ls.tokens)
      ensures Valid() && State() == ls
    {
      tokens, files, nextTokenId, nextFileId := ls.tokens, ls.files, ls.nextTokenId, ls.nextFileId;
    }

    method SetState(ls: LedgerState)
      modifies this
      ensures State() == ls
    {
      tokens, files, nextTokenId, nextFileId := ls.tokens, ls.files, ls.nextTokenId, ls.nextFileId;
    }

    /** `DBService::get_valid_token`: whatever the query finds is reported as a fresh token. */
    method GetValidToken(path: string, now: Instant) returns (r: Option<ValidToken>)
      ensures r.Some? <==> GetValidTokenAsCoded(tokens, path, now).Some?
      ensures r.Some? ==> r.value == Fresh(GetValidTokenAsCoded(tokens, path, now).value)
      ensures r.Some? ==> r.value.token in tokens && ValidAsCoded(r.value.token, path, now)
    {
      var i := 0;
      while i < |tokens|
        invariant 0 <= i <= |tokens|
        invariant GetValidTokenAsCoded(tokens, path, now) == GetValidTokenAsCoded(tokens[i..], path, now)
      {
        assert tokens[i..][1..] == tokens[i + 1..];
        if ValidAsCoded(tokens[i], path, now) {
          return Some(Fresh(tokens[i]));
        }
        i := i + 1;
      }
      r := None;
    }

    /** `DBService::create_token`: the check and the insert run in one transaction. */
    method CreateToken(ct: CreateToken, now: Instant) returns (r: Result<Token, TokenError>)
      requires Valid()
      modifies this
      ensures Valid()
      ensures (State(), r) == CreateTokenSpec(old(State()), ct, now)
    {
      var existing := GetValidToken(ct.path, now);
      if existing.Some? {
        return Err(AlreadyExist);
      }
      var t := InsertedToken(State(), ct, now);
      tokens := tokens + [t];
      nextTokenId := nextTokenId + 1;
      r := Ok(t);
    }

    method InitiateUpload(token: Token, now: Instant) returns (r: Result<Token, AppError>)
      requires Valid()
      modifies this
      ensures Valid()
      ensures (State(), r) == InitiateUploadSpec(old(State()), token, now)
    {
      var out := InitiateUploadSpec(State(), token, now);
      SetState(out.0);
      r := out.1;
    }

    method CreateFile(session: Token, backendType: string, data: BackendData,
                      mimeType: Option<string>, name: Option<string>, now: Instant) returns (f: DbFile)
      requires Valid()
      modifies this
      ensures Valid()
      ensures (State(), f) == CreateFileSpec(old(State()), session, backendType, data, mimeType, name, now)
    {
      f := DbFile(nextFileId, session.id, session.attemptCounter, mimeType, name, backendType, data, now, None);
      files := files + [f];
      nextFileId := nextFileId + 1;
    }

    method FinaliseFileUpload(file: DbFile, updated: Option<BackendData>, now: Instant)
      requires Valid()
      modifies this
      ensures Valid()
      ensures State() == FinaliseFileSpec(old(State()), file, updated, now)
    {
      SetState(FinaliseFileSpec(State(), file, updated, now));
    }

    method FinaliseTokenUpload(session: Token, now: Instant)
      requires Valid()
      modifies this
      ensures Valid()
      ensures State() == FinaliseTokenSpec(old(State()), session, now)
    {
      SetState(FinaliseTokenSpec(State(), session, now));
    }

    method DeleteFiles(ids: seq<int>)
      requires Valid()
      modifies this
      ensures Valid()
      ensures State() == DeleteFilesSpec(old(State()), ids)
    {
      SetState(DeleteFilesSpec(State(), ids));
    }

    method GetFilesToDelete(now: Instant) returns (r: seq<DbFile>)
      ensures r == FilesToDelete(State(), now)
    {
      r := FilesToDelete(State(), now);
    }

    method DeleteExpiredTokens(now: Instant) returns (gone: seq<(int, string)>)
      requires Valid()
      modifies this
      ensures Valid()
      ensures (State(), gone) == DeleteExpiredTokensSpec(old(State()), now)
    {
      var out := DeleteExpiredTokensSpec(State(), now);
      SetState(out.0);
      gone := out.1;
    }
  }
}
