/**
 * The token generation handler (src/handlers/gen.rs): the form's optional integer
 * fields use the string "None" for "no value"; a valid form asks the ledger for a
 * token on its path valid for the given number of hours, and the page says whether
 * one was created or one already existed.
 */
module TokenGen {
  import opened Wrappers
  import opened Text
  import opened Ledger

  const SecondsPerHour: int := 3600

  /**
   * `Maybe<i64>`, the untagged enum a raw form value is read into: `Just` when the
   * value parses as an integer (`from_option_str`), otherwise `Nothing` with the text.
   */
  datatype Maybe = Just(value: Option<int>) | Nothing(raw: string)

  /** `from_option_str` for a value that is present: parse it, or fail with a fixed message. */
  function FromOptionStr(s: Option<string>): (r: Result<Option<int>, string>)
    ensures s.None? ==> r == Ok(None)
    ensures s.Some? ==> (r.Ok? <==> ParseI64(s.value).Some?)
    ensures s.Some? && r.Ok? ==> r.value == Some(ParseI64(s.value).value)
    ensures r.Err? ==> r.error == "could not parse string"
  {
    match s
    case None => Ok(None)
    case Some(text) =>
      match ParseI64(text)
      case Some(v) => Ok(Some(v))
      case None => Err("could not parse string")
  }

  /** An untagged enum tries its variants in order: `Just` first, and `Nothing` takes any string. */
  function DeserializeMaybe(raw: string): (m: Maybe)
    ensures m.Just? <==> ParseI64(raw).Some?
    ensures m.Just? ==> m.value == Some(ParseI64(raw).value)
    ensures m.Nothing? ==> m.raw == raw
  {
    match FromOptionStr(Some(raw))
    case Ok(v) => Just(v)
    case Err(_) => Nothing(raw)
  }

  /** `deserialize_sentinel`: a number, or "None" for no value; anything else is an error. */
  function DeserializeSentinel(raw: string): (r: Result<Option<int>, string>)
    ensures r == Ok(None) <==> raw == "None"
    ensures ParseI64(raw).Some? ==> r == Ok(Some(ParseI64(raw).value))
    ensures r.Err? <==> raw != "None" && ParseI64(raw).None?
    ensures r.Err? ==> r.error == "Unexpected string " + raw
  {
    match DeserializeMaybe(raw)
    case Just(x) => Ok(x)
    case Nothing(text) =>
      if text == "None" then Ok(None) else Err("Unexpected string " + text)
  }

  /** How a form writes an optional integer: "None", or the number in decimal. */
  function SentinelText(v: Option<int>): string
  {
    match v
    case None => "None"
    case Some(n) => Format(n, 0)
  }

  /** Writing an optional `i64` the way the form does and reading it back gives the same value. */
  lemma SentinelRoundTrip(v: Option<int>)
    requires v.Some? ==> I64Min <= v.value <= I64Max
    ensures DeserializeSentinel(SentinelText(v)) == Ok(v)
  {
    if v.Some? {
      ParseFormatRoundTrip(v.value, true, I64Min, I64Max);
    }
  }

  /** The empty string is neither a number nor the sentinel. */
  lemma EmptyIsRejected()
    ensures DeserializeSentinel("") == Err("Unexpected string ")
  {
    assert "Unexpected string " + "" == "Unexpected string ";
  }

  /** The values the form holds once read. */
  datatype GenTokenForm = GenTokenForm(
    path: string,
    maxSizeMib: Option<int>,
    contentExpiresAfterHours: Option<int>,
    tokenValidForHour: nat)

  /**
   * Reading the url-decoded form body into `GenTokenForm`: every field is required;
   * the two optional sizes go through the sentinel parser, the validity through
   * `u64::from_str`. The error text stands for the rejection's debug rendering.
   */
  function ParseGenTokenForm(fields: map<string, string>): (r: Result<GenTokenForm, string>)
    ensures r.Ok? <==> "path" in fields && "max-size-mib" in fields && "content-expires" in fields &&
                       "token-valid-for-hour" in fields &&
                       DeserializeSentinel(fields["max-size-mib"]).Ok? &&
                       DeserializeSentinel(fields["content-expires"]).Ok? &&
                       ParseU64(fields["token-valid-for-hour"]).Some?
    ensures r.Ok? ==> r.value.path == fields["path"] &&
                      r.value.maxSizeMib == DeserializeSentinel(fields["max-size-mib"]).value &&
                      r.value.contentExpiresAfterHours == DeserializeSentinel(fields["content-expires"]).value &&
                      r.value.tokenValidForHour == ParseU64(fields["token-valid-for-hour"]).value
  {
    if "path" !in fields then Err("missing field `path`")
    else if "max-size-mib" !in fields then Err("missing field `max-size-mib`")
    else if "content-expires" !in fields then Err("missing field `content-expires`")
    else if "token-valid-for-hour" !in fields then Err("missing field `token-valid-for-hour`")
    else
      match DeserializeSentinel(fields["max-size-mib"])
      case Err(e) => Err(e)
      case Ok(maxSize) =>
        match DeserializeSentinel(fields["content-expires"])
        case Err(e) => Err(e)
        case Ok(expires) =>
          match ParseU64(fields["token-valid-for-hour"])
          case None => Err("invalid digit found in string")
          case Some(hours) => Ok(GenTokenForm(fields["path"], maxSize, expires, hours))
  }

  /** `valid_until`: `now` plus the given number of whole hours. */
  function ValidUntil(now: Instant, hours: nat): (t: Instant)
    ensures t >= now && (t == now <==> hours == 0)
    ensures t - now == hours * SecondsPerHour
  {
    now + hours * SecondsPerHour
  }

  /** The token request a valid form makes. */
  function RequestOf(form: GenTokenForm, now: Instant): (ct: CreateToken)
    ensures ct.path == form.path && ct.maxSizeMib == form.maxSizeMib
    ensures ct.contentExpiresAfterHours == form.contentExpiresAfterHours
    ensures ct.validUntil == ValidUntil(now, form.tokenValidForHour)
  {
    CreateToken(form.path, form.maxSizeMib, ValidUntil(now, form.tokenValidForHour), form.contentExpiresAfterHours)
  }

  /** What the page shows: an error or a message. */
  datatype GenPage = GenError(error: string) | GenMessage(message: string)

  const InvalidRequestPrefix: string := "Invalid request submitted: "
  const AlreadyExistText: string := "a valid token already exist for this path"
  const CreatedText: string := "token created"

  /** `create_token` on ledger values: the ledger afterwards and the page shown. */
  function CreateTokenPageSpec(ls: LedgerState, form: Result<GenTokenForm, string>, now: Instant): (out: (LedgerState, GenPage))
    ensures form.Err? ==> out == (ls, GenError(InvalidRequestPrefix + form.error))
    ensures form.Ok? ==> var ct := RequestOf(form.value, now);
                         (out.1 == GenError(AlreadyExistText) <==> GetValidTokenAsCoded(ls.tokens, ct.path, now).Some?) &&
                         (out.1 == GenError(AlreadyExistText) ==> out.0 == ls) &&
                         (out.1 != GenError(AlreadyExistText) ==>
                            out.1 == GenMessage(CreatedText) &&
                            out.0.tokens == ls.tokens + [InsertedToken(ls, ct, now)] && out.0.files == ls.files)
    ensures WellFormed(ls) ==> WellFormed(out.0)
  {
    match form
    case Err(detail) => (ls, GenError(InvalidRequestPrefix + detail))
    case Ok(f) =>
      var (ls1, r) := CreateTokenSpec(ls, RequestOf(f, now), now);
      match r
      case Err(AlreadyExist) => (ls1, GenError(AlreadyExistText))
      case Ok(_) => (ls1, GenMessage(CreatedText))
  }

  /** Submitting the same valid form twice creates one token: the second submission finds it. */
  lemma SecondSubmissionRefused(ls: LedgerState, form: GenTokenForm, now: Instant, later: Instant)
    requires CreateTokenPageSpec(ls, Ok(form), now).1 == GenMessage(CreatedText)
    ensures CreateTokenPageSpec(CreateTokenPageSpec(ls, Ok(form), now).0, Ok(form), later).1 == GenError(AlreadyExistText)
    ensures CreateTokenPageSpec(CreateTokenPageSpec(ls, Ok(form), now).0, Ok(form), later).0 == CreateTokenPageSpec(ls, Ok(form), now).0
  {
    CreateTwiceRefused(ls, RequestOf(form, now), RequestOf(form, later), now, later);
  }

  /**
   * A token created from the form is open for upload exactly until its deadline:
   * `initiate_upload` on it succeeds at any instant before `now` plus the hours asked
   * for, and is refused from then on; asking for zero hours gives a token nobody can use.
   */
  lemma CreatedTokenUploadableUntil(ls: LedgerState, form: GenTokenForm, now: Instant, at: Instant)
    requires WellFormed(ls)
    requires CreateTokenPageSpec(ls, Ok(form), now).1 == GenMessage(CreatedText)
    ensures var ls1 := CreateTokenPageSpec(ls, Ok(form), now).0;
            |ls1.tokens| == |ls.tokens| + 1 &&
            var t := ls1.tokens[|ls.tokens|];
            t.path == form.path && t.usedAt.None? &&
            (InitiateUploadSpec(ls1, t, at).1.Ok? <==> at < now + form.tokenValidForHour * SecondsPerHour)
  {
    var ls1 := CreateTokenPageSpec(ls, Ok(form), now).0;
    var t := ls1.tokens[|ls.tokens|];
    assert t == InsertedToken(ls, RequestOf(form, now), now);
    assert forall k :: 0 <= k < |ls.tokens| ==> ls1.tokens[k].id != t.id by {
      forall k | 0 <= k < |ls.tokens| ensures ls1.tokens[k].id != t.id {
        assert ls1.tokens[k] == ls.tokens[k];
      }
    }
    assert TokenIndex(ls1.tokens, t.id) == Some(|ls.tokens|);
  }

  /** The handler over the database. */
  method CreateTokenHandler(db: Db, form: Result<GenTokenForm, string>, now: Instant) returns (page: GenPage)
    requires db.Valid()
    modifies db
    ensures db.Valid()
    ensures (db.State(), page) == CreateTokenPageSpec(old(db.State()), form, now)
  {
    if form.Err? {
      return GenError(InvalidRequestPrefix + form.error);
    }
    var f := form.value;
    var validUntil := ValidUntil(now, f.tokenValidForHour);
    var ct := CreateToken(f.path, f.maxSizeMib, validUntil, f.contentExpiresAfterHours);
    var r := db.CreateToken(ct, now);
    match r {
      case Err(AlreadyExist) => page := GenError(AlreadyExistText);
      case Ok(_) => page := GenMessage(CreatedText);
    }
  }
}
