/**
 * The download handler (`get_file` in src/handlers/file.rs): look up a servable file
 * by token path and id, compute its Content-Type and Content-Disposition headers
 * (section 4.1 of RFC 6266), and open its blob in the store its row names.
 *
 * The filename goes into a quoted-string. As written it is inserted verbatim, so a
 * name holding `"` or `\` yields a header whose filename parameter reads back as a
 * different name; the corrected header escapes those two characters (a quoted-pair,
 * section 2.2 of RFC 2616). `GetFile` sends either, as `asWritten` selects.
 */
module FileDownload {
  import opened Wrappers
  import opened Text
  import opened Errors
  import opened BlobStore
  import opened Ledger

  const OctetStream: string := "application/octet-stream"

  /** A character `HeaderValue` accepts: visible or obs-text, space, or tab; no other control character. */
  predicate HeaderChar(c: char)
  {
    (c >= ' ' && c as int != 0x7F) || c == '\t'
  }

  predicate HeaderSafe(s: string)
  {
    forall i :: 0 <= i < |s| ==> HeaderChar(s[i])
  }

  /** The Content-Type: the stored mime type when there is one that is a valid header value, else the octet-stream type. */
  function ContentType(mime: Option<string>): (t: string)
    ensures mime.Some? && HeaderSafe(mime.value) ==> t == mime.value
    ensures mime.None? || !HeaderSafe(mime.value) ==> t == OctetStream
    ensures HeaderSafe(t)
  {
    var m := if mime.Some? then mime.value else OctetStream;
    if HeaderSafe(m) then m else OctetStream
  }

  /** The name offered for download: the stored one, or the token id and file id, each padded to four digits. */
  function FileName(f: DbFile): string
  {
    match f.name
    case Some(n) => n
    case None => Format(f.tokenId, 4) + "_" + Format(f.id, 4)
  }

  /** Two unnamed files get the same default name only if they have the same token id and file id. */
  lemma DefaultNameInjective(f1: DbFile, f2: DbFile)
    requires f1.name.None? && f2.name.None? && FileName(f1) == FileName(f2)
    ensures f1.tokenId == f2.tokenId && f1.id == f2.id
  {
    FormatHasNo(f1.tokenId, 4, '_');
    FormatHasNo(f2.tokenId, 4, '_');
    assert Format(f1.tokenId, 4) + "_" + Format(f1.id, 4) == Format(f1.tokenId, 4) + ['_'] + Format(f1.id, 4);
    assert Format(f2.tokenId, 4) + "_" + Format(f2.id, 4) == Format(f2.tokenId, 4) + ['_'] + Format(f2.id, 4);
    SplitAtFirst(Format(f1.tokenId, 4), Format(f1.id, 4), Format(f2.tokenId, 4), Format(f2.id, 4), '_');
    FormatInjective(f1.tokenId, f2.tokenId, 4);
    FormatInjective(f1.id, f2.id, 4);
  }

  /** A default name is always a valid header value. */
  lemma DefaultNameSafe(f: DbFile)
    requires f.name.None?
    ensures HeaderSafe(FileName(f))
  {
    FormatShape(f.tokenId, 4);
    FormatShape(f.id, 4);
  }

  /** `dl=true` asks for an attachment; `dl=false` or no `dl` shows the file inline. */
  function DispositionType(dl: Option<bool>): (k: string)
    ensures k == "attachment" <==> dl == Some(true)
    ensures k == "inline" <==> dl != Some(true)
  {
    if dl == Some(true) then "attachment" else "inline"
  }

  function FilenamePrefix(kind: string): string
  {
    kind + "; filename=\""
  }

  /** The Content-Disposition value as written: the name between quotes, verbatim. */
  function DispositionAsWritten(kind: string, name: string): string
  {
    FilenamePrefix(kind) + name + "\""
  }

  /** The name as a quoted-string body: `"` and `\` are each preceded by a backslash. */
  function Quote(name: string): (q: string)
    ensures |q| >= |name|
  {
    if name == [] then []
    else (if name[0] == '"' || name[0] == '\\' then ['\\', name[0]] else [name[0]]) + Quote(name[1..])
  }

  /** The Content-Disposition value with the name escaped. */
  function Disposition(kind: string, name: string): string
  {
    FilenamePrefix(kind) + Quote(name) + "\""
  }

  /**
   * Reading a quoted-string after its opening quote: the unescaped text up to the
   * closing quote, and what follows it; `None` when the quote is never closed.
   */
  function QuotedBody(s: string): (r: Option<(string, string)>)
    ensures r.Some? ==> |r.value.1| < |s|
    decreases |s|
  {
    if s == [] then None
    else if s[0] == '"' then Some(([], s[1..]))
    else if s[0] == '\\' then
      if |s| < 2 then None
      else match QuotedBody(s[2..])
        case None => None
        case Some(body) => Some(([s[1]] + body.0, body.1))
    else match QuotedBody(s[1..])
      case None => None
      case Some(body) => Some(([s[0]] + body.0, body.1))
  }

  /** The filename a client reads from a disposition value of the given type: one quoted-string ending the value. */
  function ReadFilename(value: string, kind: string): Option<string>
  {
    var prefix := FilenamePrefix(kind);
    if |value| < |prefix| || value[..|prefix|] != prefix then None
    else match QuotedBody(value[|prefix|..])
      case Some(body) => if body.1 == [] then Some(body.0) else None
      case None => None
  }

  /** An escaped name followed by the closing quote reads back as the name, leaving what follows. */
  lemma {:induction false} QuoteRoundTrip(name: string, tail: string)
    ensures QuotedBody(Quote(name) + "\"" + tail) == Some((name, tail))
  {
    var s := Quote(name) + "\"" + tail;
    if name == [] {
      assert s == "\"" + tail;
    } else {
      QuoteRoundTrip(name[1..], tail);
      var c := name[0];
      if c == '"' || c == '\\' {
        assert s[0] == '\\' && s[1] == c;
        assert s[2..] == Quote(name[1..]) + "\"" + tail;
      } else {
        assert s[0] == c;
        assert s[1..] == Quote(name[1..]) + "\"" + tail;
      }
      assert [c] + name[1..] == name;
    }
  }

  /** The corrected header carries every name intact. */
  lemma DispositionRoundTrip(kind: string, name: string)
    ensures ReadFilename(Disposition(kind, name), kind) == Some(name)
  {
    var prefix := FilenamePrefix(kind);
    var value := Disposition(kind, name);
    assert value[..|prefix|] == prefix;
    assert value[|prefix|..] == Quote(name) + "\"" + [];
    QuoteRoundTrip(name, []);
  }

  /** A name without `"` or `\` is its own escape, so the two headers agree on it. */
  lemma {:induction false} QuotePlain(name: string)
    requires forall i :: 0 <= i < |name| ==> name[i] != '"' && name[i] != '\\'
    ensures Quote(name) == name
    ensures Disposition(DispositionType(None), name) == DispositionAsWritten(DispositionType(None), name)
  {
    if name != [] {
      QuotePlain(name[1..]);
      assert [name[0]] + name[1..] == name;
    }
  }

  /** As written, a name without `"` or `\` still reads back from its header intact. */
  lemma PlainNameReadsBack(kind: string, name: string)
    ensures (forall i :: 0 <= i < |name| ==> name[i] != '"' && name[i] != '\\') ==>
              ReadFilename(DispositionAsWritten(kind, name), kind) == Some(name)
  {
    if forall i :: 0 <= i < |name| ==> name[i] != '"' && name[i] != '\\' {
      QuotePlain(name);
      assert DispositionAsWritten(kind, name) == Disposition(kind, name);
      DispositionRoundTrip(kind, name);
    }
  }

  /** As written, the name `a"b` reads back from its header as no filename at all. */
  lemma UnescapedQuoteLosesName(kind: string)
    ensures ReadFilename(DispositionAsWritten(kind, "a\"b"), kind) == None
  {
    var prefix := FilenamePrefix(kind);
    var value := DispositionAsWritten(kind, "a\"b");
    assert value[..|prefix|] == prefix;
    var rest := value[|prefix|..];
    assert rest == "a\"b\"";
    assert rest[1..] == "\"b\"";
    assert QuotedBody(rest[1..]) == Some(([], "b\""));
  }

  /** Escaping adds only backslashes, so the escaped name is a valid header value exactly when the name is. */
  lemma {:induction false} QuoteSafe(name: string)
    ensures HeaderSafe(Quote(name)) <==> HeaderSafe(name)
  {
    if name != [] {
      QuoteSafe(name[1..]);
      var head := if name[0] == '"' || name[0] == '\\' then ['\\', name[0]] else [name[0]];
      assert Quote(name) == head + Quote(name[1..]);
      assert name == [name[0]] + name[1..];
      if HeaderSafe(Quote(name)) {
        assert HeaderChar(name[0]) by {
          assert Quote(name)[|head| - 1] == name[0];
        }
        assert forall i :: 0 <= i < |Quote(name[1..])| ==> Quote(name)[|head| + i] == Quote(name[1..])[i];
      }
    }
  }

  lemma HeaderSafeJoin(a: string, b: string)
    ensures HeaderSafe(a + b) <==> HeaderSafe(a) && HeaderSafe(b)
  {
    if HeaderSafe(a + b) {
      assert forall i :: 0 <= i < |a| ==> (a + b)[i] == a[i];
      assert forall i :: 0 <= i < |b| ==> (a + b)[|a| + i] == b[i];
    }
  }

  /** The corrected disposition is a valid header value exactly when the name is. */
  lemma DispositionSafe(kind: string, name: string)
    requires HeaderSafe(kind)
    ensures HeaderSafe(Disposition(kind, name)) <==> HeaderSafe(name)
  {
    QuoteSafe(name);
    HeaderSafeJoin(kind, "; filename=\"");
    HeaderSafeJoin(FilenamePrefix(kind), Quote(name));
    HeaderSafeJoin(FilenamePrefix(kind) + Quote(name), "\"");
  }

  /** The header as written is a valid value exactly when the name is, as for the corrected one. */
  lemma DispositionAsWrittenSafe(kind: string, name: string)
    requires HeaderSafe(kind)
    ensures HeaderSafe(DispositionAsWritten(kind, name)) <==> HeaderSafe(name)
  {
    HeaderSafeJoin(kind, "; filename=\"");
    HeaderSafeJoin(FilenamePrefix(kind), name);
    HeaderSafeJoin(FilenamePrefix(kind) + name, "\"");
  }

  // ---------------------------------------------------------------------------
  // The handler

  /** An opened blob: a local file handle, or the object's bytes as the S3 client streams them. */
  datatype Blob = LocalBlob(handle: LocalFsBlob) | RemoteBlob(bytes: seq<Byte>)

  /** The handler's answer: the plain "not found" page, or the headers and the blob to stream. */
  datatype Download = NotFoundText | Stream(contentType: string, disposition: string, blob: Blob)

  /** How `get_file` ends: a response or an error, or the panic of an `unwrap` on an invalid header value. */
  datatype Handled = Answered(result: Result<Download, AppError>) | Panicked

  const NotFoundBody: string := "not found"

  /** The backend dispatch: open the blob in the store the row names, or reject an unknown backend. */
  function OpenBlob(s: Stores, f: DbFile): (r: Result<Blob, AppError>)
    ensures f.backendType != LocalFsType && f.backendType != GarageType ==> r == Err(UnknownStorageBackend(f.backendType))
    ensures f.backendType == LocalFsType ==>
              (r.Ok? <==> f.backendData.LocalJson? && LocalReadSpec(s.fs, f.backendData.local).Ok?) &&
              (r.Ok? ==> r.value == LocalBlob(LocalFsBlob(f.backendData.local.path)))
    ensures f.backendType == GarageType ==>
              (r.Ok? <==> f.backendData.GarageJson? && s.online && f.backendData.garage in s.objects) &&
              (r.Ok? ==> r.value == RemoteBlob(s.objects[f.backendData.garage]))
  {
    if f.backendType == LocalFsType then
      match DecodeLocal(f.backendData)
      case Err(e) => Err(e)
      case Ok(d) =>
        match LocalReadSpec(s.fs, d)
        case Err(e) => Err(e)
        case Ok(handle) => Ok(LocalBlob(handle))
    else if f.backendType == GarageType then
      match DecodeGarage(f.backendData)
      case Err(e) => Err(e)
      case Ok(g) =>
        match GarageReadSpec(s.objects, s.online, g)
        case Err(e) => Err(e)
        case Ok(bytes) => Ok(RemoteBlob(bytes))
    else
      Err(UnknownStorageBackend(f.backendType))
  }

  /**
   * `get_file` for `path`, `fileId` and the `dl` query parameter, at `now`. As written
   * (`asWritten`) the disposition carries the name verbatim; corrected, escaped.
   */
  function GetFile(ls: LedgerState, s: Stores, path: string, fileId: int, dl: Option<bool>, now: Instant, asWritten: bool): (o: Handled)
    ensures o == Answered(Ok(NotFoundText)) <==> GetValidFile(ls, path, fileId, now).None?
    ensures GetValidFile(ls, path, fileId, now).Some? ==>
              var f := GetValidFile(ls, path, fileId, now).value;
              (o.Panicked? <==> !HeaderSafe(FileName(f))) &&
              (o.Answered? ==>
                 (o.result.Ok? <==> OpenBlob(s, f).Ok?) &&
                 (o.result.Err? ==> o.result.error == OpenBlob(s, f).error) &&
                 (o.result.Ok? ==> o.result.value.Stream? &&
                                   o.result.value.contentType == ContentType(f.mimeType) &&
                                   o.result.value.blob == OpenBlob(s, f).value))
    ensures GetValidFile(ls, path, fileId, now).Some? && o.Answered? && o.result.Ok? ==>
              var f := GetValidFile(ls, path, fileId, now).value;
              var name := FileName(f);
              (asWritten ==> o.result.value.disposition == DispositionAsWritten(DispositionType(dl), name)) &&
              (!asWritten || (forall i :: 0 <= i < |name| ==> name[i] != '"' && name[i] != '\\') ==>
                 ReadFilename(o.result.value.disposition, DispositionType(dl)) == Some(name))
  {
    match GetValidFile(ls, path, fileId, now)
    case None => Answered(Ok(NotFoundText))
    case Some(f) =>
      var kind := DispositionType(dl);
      var name := FileName(f);
      var disposition := if asWritten then DispositionAsWritten(kind, name) else Disposition(kind, name);
      DispositionSafe(kind, name);
      DispositionAsWrittenSafe(kind, name);
      DispositionRoundTrip(kind, name);
      PlainNameReadsBack(kind, name);
      if !HeaderSafe(disposition) then Panicked
      else
        match OpenBlob(s, f)
        case Err(e) => Answered(Err(e))
        case Ok(blob) => Answered(Ok(Stream(ContentType(f.mimeType), disposition, blob)))
  }

  /** The HTTP status of an answer: 404 for the not-found page, 200 for a stream, and the error's own status otherwise. */
  function Status(r: Result<Download, AppError>): (code: int)
    ensures code == StatusNotFound <==> r == Ok(NotFoundText) || (r.Err? && r.error.NotFound?)
  {
    match r
    case Ok(NotFoundText) => StatusNotFound
    case Ok(Stream(_, _, _)) => 200
    case Err(e) => IntoResponse(e).status
  }

  /** For a valid file, an unknown backend or an unreadable blob is answered with a server error, never a 404. */
  lemma MissingBlobIsServerError(ls: LedgerState, s: Stores, path: string, fileId: int, dl: Option<bool>, now: Instant, asWritten: bool)
    requires GetValidFile(ls, path, fileId, now).Some?
    requires OpenBlob(s, GetValidFile(ls, path, fileId, now).value).Err?
    ensures var o := GetFile(ls, s, path, fileId, dl, now, asWritten);
            o.Answered? ==> o.result.Err? && Status(o.result) == StatusInternalServerError
  {
    var f := GetValidFile(ls, path, fileId, now).value;
    var e := OpenBlob(s, f).error;
    assert !e.NotFound?;
  }
}
