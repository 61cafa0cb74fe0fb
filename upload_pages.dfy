/**
 * The pure parts of the upload page handlers: the mime prefix shown next to each
 * file, the "expires in" text of the files page, the `zip` query flag, and which
 * page `get_upload_form` serves for each kind of token.
 */
module UploadPages {
  import opened Wrappers
  import opened Text
  import opened Errors
  import opened Ledger

  /** How a stored file is shown on the files page. */
  datatype TplFile = TplFile(id: int, mimeType: Option<string>, mimePrefix: Option<string>, name: Option<string>)

  /** The part of a mime type before its first '/', if it has one: "image" for "image/png". */
  function MimePrefix(mime: Option<string>): (r: Option<string>)
    ensures r.Some? <==> mime.Some? && '/' in mime.value
    ensures r.Some? ==> '/' !in r.value && r.value + ['/'] + After(mime.value, '/') == mime.value
  {
    match mime
    case None => None
    case Some(m) =>
      if '/' in m then
        SplitRejoins(m, '/');
        Some(Before(m, '/'))
      else None
  }

  /** The prefix of a type joined from a slash-free head and any tail is that head. */
  lemma MimePrefixOfJoin(head: string, tail: string)
    requires '/' !in head
    ensures MimePrefix(Some(head + "/" + tail)) == Some(head)
  {
    SplitJoined(head, '/', tail);
  }

  /** `TplFile::from`: the file's id, type and name, and the prefix of its type. */
  function TplFileFrom(f: DbFile): (t: TplFile)
    ensures t.id == f.id && t.mimeType == f.mimeType && t.name == f.name
    ensures t.mimePrefix.Some? <==> f.mimeType.Some? && '/' in f.mimeType.value
    ensures t.mimePrefix.Some? ==> '/' !in t.mimePrefix.value && t.mimePrefix.value + ['/'] + After(f.mimeType.value, '/') == f.mimeType.value
  {
    TplFile(f.id, f.mimeType, MimePrefix(f.mimeType), f.name)
  }

  // ---------------------------------------------------------------------------
  // "expires in"

  const SecondsPerMinute: int := 60
  const SecondsPerHour: int := 3600
  const SecondsPerDay: int := 86400

  /** Division rounding toward zero, as `whole_days`, `whole_hours` and `whole_minutes` do. */
  function TruncDiv(a: int, b: int): (q: int)
    requires b > 0
    ensures a >= 0 ==> 0 <= q && q * b <= a < q * b + b
    ensures a < 0 ==> q <= 0 && q * b >= a > q * b - b
  {
    if a >= 0 then a / b else -((-a) / b)
  }

  /**
   * The whole days of the remaining time `d` (in seconds), then the whole hours of
   * what is left once the days are taken off, then the whole minutes of what is left
   * once the hours are taken off.
   */
  function Breakdown(d: int): (r: (int, int, int))
    ensures d >= 0 ==> r.0 >= 0 && 0 <= r.1 < 24 && 0 <= r.2 < 60 &&
                       r.0 * SecondsPerDay + r.1 * SecondsPerHour + r.2 * SecondsPerMinute <= d <
                       r.0 * SecondsPerDay + r.1 * SecondsPerHour + r.2 * SecondsPerMinute + SecondsPerMinute
    ensures d < 0 ==> r.0 <= 0 && r.1 <= 0 && r.2 <= 0
  {
    var days := TruncDiv(d, SecondsPerDay);
    var d1 := d - days * SecondsPerDay;
    var hours := TruncDiv(d1, SecondsPerHour);
    var d2 := d1 - hours * SecondsPerHour;
    (days, hours, TruncDiv(d2, SecondsPerMinute))
  }

  /** The breakdown of a non-negative time is the one with hours below 24 and minutes below 60. */
  lemma BreakdownUnique(d: int, days: int, hours: int, minutes: int, seconds: int)
    requires days >= 0 && 0 <= hours < 24 && 0 <= minutes < 60 && 0 <= seconds < 60
    requires d == days * SecondsPerDay + hours * SecondsPerHour + minutes * SecondsPerMinute + seconds
    ensures Breakdown(d) == (days, hours, minutes)
  {
    var r := Breakdown(d);
    assert (r.1 * SecondsPerHour + r.2 * SecondsPerMinute) < SecondsPerDay;
    assert (hours * SecondsPerHour + minutes * SecondsPerMinute + seconds) < SecondsPerDay;
    assert r.0 == days;
    assert r.1 == hours;
  }

  /** "N unit " when N is positive, nothing otherwise. */
  function Part(n: int, unit: string): (s: string)
    ensures s == [] <==> n <= 0
  {
    if n > 0 then Format(n, 0) + " " + unit + " " else ""
  }

  /** The `expires_in` text for a remaining time of `d` seconds: days, hours and minutes, each only when positive. */
  function ExpiresIn(d: int): string
  {
    var (days, hours, minutes) := Breakdown(d);
    Part(days, "days") + Part(hours, "hours") + Part(minutes, "minutes")
  }

  /**
   * A remaining time of `days` days, `hours` hours (below 24), `minutes` minutes (below
   * 60) and some seconds reads as the positive ones of the three, in that order.
   */
  lemma ExpiresInParts(days: int, hours: int, minutes: int, seconds: int)
    requires days >= 0 && 0 <= hours < 24 && 0 <= minutes < 60 && 0 <= seconds < 60
    ensures ExpiresIn(days * SecondsPerDay + hours * SecondsPerHour + minutes * SecondsPerMinute + seconds) ==
            Part(days, "days") + Part(hours, "hours") + Part(minutes, "minutes")
  {
    BreakdownUnique(days * SecondsPerDay + hours * SecondsPerHour + minutes * SecondsPerMinute + seconds, days, hours, minutes, seconds);
  }

  /** The text is empty exactly when less than a minute remains (or the time is already past). */
  lemma ExpiresInEmpty(d: int)
    ensures ExpiresIn(d) == [] <==> d < SecondsPerMinute
  {
    var (days, hours, minutes) := Breakdown(d);
    if d >= SecondsPerMinute {
      assert days > 0 || hours > 0 || minutes > 0;
    }
  }

  // ---------------------------------------------------------------------------
  // The `zip` query flag

  /** The message of `bool`'s parse error. */
  const ParseBoolMessage: string := "provided string was not `true` or `false`"

  /** `true_if_present`: no value or an empty one means true; otherwise the value must be "true" or "false". */
  function TrueIfPresent(value: Option<string>): (r: Result<bool, string>)
    ensures value.None? || value == Some("") ==> r == Ok(true)
    ensures value.Some? && value.value != "" ==> (r.Ok? <==> ParseBool(value.value).Some?)
    ensures r.Ok? && value.Some? && value.value != "" ==> Some(r.value) == ParseBool(value.value)
    ensures r.Err? ==> r.error == ParseBoolMessage
  {
    match value
    case None => Ok(true)
    case Some(s) =>
      if s == "" then Ok(true)
      else match ParseBool(s)
        case Some(b) => Ok(b)
        case None => Err(ParseBoolMessage)
  }

  /**
   * The `zip` field of the query: `None` when the key is absent, in which case the
   * field's default, false, applies and `true_if_present` is not consulted.
   */
  function ZipFlag(key: Option<Option<string>>): (r: Result<bool, string>)
    ensures key.None? ==> r == Ok(false)
    ensures key.Some? ==> r == TrueIfPresent(key.value)
  {
    if key.None? then Ok(false) else TrueIfPresent(key.value)
  }

  // ---------------------------------------------------------------------------
  // get_upload_form

  /** The pages `get_upload_form` can serve. */
  datatype FormPage = NoLinkFound | UploadForm(token: Token) | FilesZip(token: Token) | FilesList(token: Token)

  /** The status line of each page: only the "no link" page is a 404. */
  function FormPageStatus(p: FormPage): (status: int)
    ensures status == StatusNotFound <==> p.NoLinkFound?
  {
    if p.NoLinkFound? then StatusNotFound else 200
  }

  /** A fresh token gets the upload form; a used one its files, as a zip when asked; no live token the "no link" page. */
  function GetUploadFormPage(found: GetTokenResult, zip: bool): (p: FormPage)
    ensures p.NoLinkFound? <==> found.NoToken?
    ensures p.UploadForm? <==> found.FreshToken?
    ensures p.FilesZip? <==> found.UsedToken? && zip
    ensures p.FilesList? <==> found.UsedToken? && !zip
    ensures !p.NoLinkFound? ==> p.token == found.token
  {
    match found
    case NoToken => NoLinkFound
    case FreshToken(t) => UploadForm(t)
    case UsedToken(t) => if zip then FilesZip(t) else FilesList(t)
  }
}
