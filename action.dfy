/**
 * The Go action: the input checks `main` runs before anything is sent, `parseScheduledAt`,
 * and `postStatus`, which sends one request and turns the reply into action outputs.
 *
 * The clock, `time.Parse`, the HTTP exchange and JSON decoding of the reply are parameters:
 * `now` is the current time in Unix nanoseconds, `parsed` is what `time.Parse` made of the
 * scheduled-at input (None when it reported an error), and `reply` is what the HTTP client
 * and the decoder produced.
 */
module Action {
  import opened Results
  import opened GoStrings
  import opened Rfc3339
  import opened Status

  /** The command-line inputs (each also settable through the environment). */
  datatype ActionInputs = ActionInputs(
    url: string,
    accessToken: string,
    message: string,
    visibility: string,
    sensitive: bool,
    spoilerText: string,
    language: string,
    scheduledAt: string)

  /** Why `parseScheduledAt` refused its input. */
  datatype ScheduleError =
    | InvalidDateFormat   // time.Parse rejected the text
    | TooSoon             // less than five minutes ahead

  /** Every way a run ends with a fatal log line and a non-zero exit. */
  datatype Error =
    | EmptyMessage
    | InvalidVisibility(visibility: string)
    | ScheduledAtError(cause: ScheduleError)
    | ApiCallError                                   // no response: transport failure, or the timeout before the headers
    | ApiResponseError(statusCode: int, body: string) // body "" when it could not be read, the timeout included
    | ReadingBodyError                               // the 200 body could not be read, the timeout included
    | UnmarshalScheduledError
    | UnmarshalStatusError

  const StatusOK := 200
  const FiveMinutes := 5 * NanosPerMinute

  /** The range of Go's `time.Duration` (an int64 count of nanoseconds). */
  const MinDuration := -0x8000_0000_0000_0000
  const MaxDuration := 0x7FFF_FFFF_FFFF_FFFF

  /**
   * `time.Until(t)`: the distance from now to t, saturated to the Duration range.
   * Saturation never changes which side of five minutes the distance falls on.
   */
  function Until(t: ParsedTime, now: int): (d: int)
    ensures MinDuration <= d <= MaxDuration
    ensures d < FiveMinutes <==> UnixNanos(t) - now < FiveMinutes
    ensures MinDuration <= UnixNanos(t) - now <= MaxDuration ==> d == UnixNanos(t) - now
  {
    var diff := UnixNanos(t) - now;
    if diff < MinDuration then MinDuration else if diff > MaxDuration then MaxDuration else diff
  }

  /**
   * `parseScheduledAt`: the empty input means no scheduling; otherwise the parsed time must
   * lie at least five minutes ahead and is returned rendered as an RFC 3339 date-time.
   * As in Go, an error comes with an empty string.
   */
  function ParseScheduledAt(input: string, parsed: Option<ParsedTime>, now: int): (r: (string, Option<ScheduleError>))
    ensures input == "" ==> r == ("", None)
    ensures input != "" && parsed.None? ==> r == ("", Some(InvalidDateFormat))
    ensures input != "" && parsed.Some? && UnixNanos(parsed.value) - now < FiveMinutes ==> r == ("", Some(TooSoon))
    ensures input != "" && parsed.Some? && UnixNanos(parsed.value) - now >= FiveMinutes ==>
              && r.1 == None && IsDateTime(r.0) && FieldsOf(r.0) == parsed.value
              && InstantOf(r.0) == UnixNanos(parsed.value) && InstantOf(r.0) - now >= FiveMinutes
              && r.0[17..] == "00Z"
    ensures r.1.Some? ==> r.0 == ""
    ensures r.1 == None ==> ('T' in r.0 <==> input != "")
  {
    if input == "" then ("", None)
    else if parsed.None? then ("", Some(InvalidDateFormat))
    else if Until(parsed.value, now) < FiveMinutes then ("", Some(TooSoon))
    else
      FormatIsDateTime(parsed.value);
      (Format(parsed.value), None)
  }

  /**
   * The checks `main` makes before posting, in its order (message, visibility, scheduled
   * time; the first failure ends the run), and the status it builds from the inputs.
   */
  function Validate(args: ActionInputs, parsed: Option<ParsedTime>, now: int): (r: Result<MastodonStatus, Error>)
    ensures AllSpace(args.message) ==> r == Failure(EmptyMessage)
    ensures !AllSpace(args.message) && !IsValid(args.visibility) ==> r == Failure(InvalidVisibility(args.visibility))
    ensures !AllSpace(args.message) && IsValid(args.visibility) && ParseScheduledAt(args.scheduledAt, parsed, now).1.Some? ==>
              r == Failure(ScheduledAtError(ParseScheduledAt(args.scheduledAt, parsed, now).1.value))
    ensures r.Success? <==>
              !AllSpace(args.message) && IsValid(args.visibility) && ParseScheduledAt(args.scheduledAt, parsed, now).1 == None
    ensures r.Success? ==>
              r.value == MastodonStatus(args.message, args.visibility, args.sensitive, args.spoilerText, args.language,
                                        ParseScheduledAt(args.scheduledAt, parsed, now).0)
    ensures r.Success? ==> ('T' in r.value.scheduledAt <==> args.scheduledAt != "")
  {
    TrimSpaceBlank(args.message);
    if TrimSpace(args.message) == "" then Failure(EmptyMessage)
    else if !IsValid(args.visibility) then Failure(InvalidVisibility(args.visibility))
    else
      var (scheduledAt, err) := ParseScheduledAt(args.scheduledAt, parsed, now);
      if err.Some? then Failure(ScheduledAtError(err.value))
      else Success(MastodonStatus(args.message, args.visibility, args.sensitive, args.spoilerText, args.language, scheduledAt))
  }

  /** The immediate-post reply shape. */
  datatype StatusResponse = StatusResponse(id: string, url: string, content: string, createdAt: string, visibility: string)

  /** The scheduled-post reply shape; `scheduledAt` is the decoded instant as `Time.String` renders it. */
  datatype ScheduledStatusResponse = ScheduledStatusResponse(id: string, scheduledAt: string)

  /** A reply body read in full: its text, and what unmarshalling it into each shape gives (None: a decode error). */
  datatype Body = Body(text: string, asStatus: Option<StatusResponse>, asScheduled: Option<ScheduledStatusResponse>)

  /** What the HTTP client returned: no response at all, or a status code and the body (None: reading it failed). */
  datatype Reply =
    | CallFailed
    | Response(statusCode: int, body: Option<Body>)

  /** One HTTP request as sent. */
  datatype Request = Request(verb: string, url: string, header: seq<(string, string)>, body: seq<Member>)

  /** The request `postStatus` sends for a status. */
  function NewRequest(url: string, accessToken: string, status: MastodonStatus): Request {
    Request("POST", url + "/api/v1/statuses",
            [("Authorization", "Bearer " + accessToken), ("Content-Type", "application/json")],
            Marshal(status))
  }

  /**
   * What `postStatus` makes of a reply: an error, or the outputs to set. The reply shape
   * is chosen by the request's `ScheduledAt`, never by the reply itself.
   */
  function PostOutcome(status: MastodonStatus, reply: Reply): (r: Result<map<string, string>, Error>)
    ensures reply.CallFailed? ==> r == Failure(ApiCallError)
    ensures reply.Response? && reply.statusCode != StatusOK ==>
              r == Failure(ApiResponseError(reply.statusCode, if reply.body.Some? then reply.body.value.text else ""))
    ensures reply.Response? && reply.statusCode == StatusOK && reply.body.None? ==> r == Failure(ReadingBodyError)
    ensures r.Success? ==> reply.Response? && reply.statusCode == StatusOK && reply.body.Some?
    ensures r.Success? && 'T' in status.scheduledAt ==>
              && reply.body.value.asScheduled.Some?
              && r.value.Keys == {"id", "scheduled_at"}
              && r.value["id"] == reply.body.value.asScheduled.value.id
              && r.value["scheduled_at"] == reply.body.value.asScheduled.value.scheduledAt
    ensures r.Success? && 'T' !in status.scheduledAt ==>
              && reply.body.value.asStatus.Some?
              && r.value.Keys == {"id", "url"}
              && r.value["id"] == reply.body.value.asStatus.value.id
              && r.value["url"] == reply.body.value.asStatus.value.url
    ensures reply.Response? && reply.statusCode == StatusOK && reply.body.Some? ==>
              (r.Success? <==> if 'T' in status.scheduledAt then reply.body.value.asScheduled.Some?
                               else reply.body.value.asStatus.Some?)
    ensures reply.Response? && reply.statusCode == StatusOK && reply.body.Some? && 'T' in status.scheduledAt ==>
              reply.body.value.asScheduled.None? ==> r == Failure(UnmarshalScheduledError)
    ensures reply.Response? && reply.statusCode == StatusOK && reply.body.Some? && 'T' !in status.scheduledAt ==>
              reply.body.value.asStatus.None? ==> r == Failure(UnmarshalStatusError)
    ensures r.Failure? && 'T' in status.scheduledAt ==> r.error != UnmarshalStatusError
    ensures r.Failure? && 'T' !in status.scheduledAt ==> r.error != UnmarshalScheduledError
  {
    match reply
    case CallFailed => Failure(ApiCallError)
    case Response(code, body) =>
      if code != StatusOK then Failure(ApiResponseError(code, if body.Some? then body.value.text else ""))
      else if body.None? then Failure(ReadingBodyError)
      else if 'T' in status.scheduledAt then
        match body.value.asScheduled
        case None => Failure(UnmarshalScheduledError)
        case Some(s) => Success(map["id" := s.id, "scheduled_at" := s.scheduledAt])
      else
        match body.value.asStatus
        case None => Failure(UnmarshalStatusError)
        case Some(s) => Success(map["id" := s.id, "url" := s.url])
  }

  /**
   * After a valid run has posted successfully, the outputs name a scheduled time exactly
   * when a scheduled time was given, and a URL exactly when none was.
   */
  lemma OutputsFollowScheduling(args: ActionInputs, parsed: Option<ParsedTime>, now: int, reply: Reply)
    requires Validate(args, parsed, now).Success?
    requires PostOutcome(Validate(args, parsed, now).value, reply).Success?
    ensures var outputs := PostOutcome(Validate(args, parsed, now).value, reply).value;
            && ("scheduled_at" in outputs <==> args.scheduledAt != "")
            && ("url" in outputs <==> args.scheduledAt == "")
            && "id" in outputs
  {
  }

  /**
   * For a valid input the request body opens with the message and the visibility exactly
   * as given, and decodes back to the status built from the inputs.
   */
  lemma PayloadCarriesInputs(args: ActionInputs, parsed: Option<ParsedTime>, now: int)
    requires Validate(args, parsed, now).Success?
    ensures var body := NewRequest(args.url, args.accessToken, Validate(args, parsed, now).value).body;
            && |body| >= 2
            && body[0] == ("status", JString(args.message))
            && body[1] == ("visibility", JString(args.visibility))
            && Unmarshal(body) == Validate(args, parsed, now).value
            && Unmarshal(body).scheduledAt == ParseScheduledAt(args.scheduledAt, parsed, now).0
  {
    var status := Validate(args, parsed, now).value;
    MarshalKeys(status);
    MarshalRoundTrip(status);
  }

  /** What the run does to the world outside the process. */
  class Effects {
    /** Every HTTP request sent, in order. */
    var requests: seq<Request>
    /** The action outputs set so far. */
    var outputs: map<string, string>

    constructor ()
      ensures requests == [] && outputs == map[]
    {
      requests := [];
      outputs := map[];
    }
  }

  /**
   * `postStatus`: sends exactly one request, then either fails without setting any output
   * or sets the outputs its reply shape provides.
   */
  method PostStatus(url: string, accessToken: string, status: MastodonStatus, reply: Reply, world: Effects)
    returns (err: Option<Error>)
    modifies world
    ensures world.requests == old(world.requests) + [NewRequest(url, accessToken, status)]
    ensures PostOutcome(status, reply).Failure? ==>
              err == Some(PostOutcome(status, reply).error) && world.outputs == old(world.outputs)
    ensures PostOutcome(status, reply).Success? ==>
              err == None && world.outputs == old(world.outputs) + PostOutcome(status, reply).value
  {
    var payload := Marshal(status);
    var apiUrl := url + "/api/v1/statuses";
    var header: seq<(string, string)> := [];
    header := header + [("Authorization", "Bearer " + accessToken)];
    header := header + [("Content-Type", "application/json")];
    assert Request("POST", apiUrl, header, payload) == NewRequest(url, accessToken, status);
    world.requests := world.requests + [Request("POST", apiUrl, header, payload)];

    if reply.CallFailed? {
      return Some(ApiCallError);
    }
    if reply.statusCode != StatusOK {
      var text := if reply.body.Some? then reply.body.value.text else "";  // best effort
      return Some(ApiResponseError(reply.statusCode, text));
    }
    if reply.body.None? {
      return Some(ReadingBodyError);
    }
    var body := reply.body.value;
    if 'T' in status.scheduledAt {
      if body.asScheduled.None? {
        return Some(UnmarshalScheduledError);
      }
      var scheduled := body.asScheduled.value;
      world.outputs := world.outputs + map["id" := scheduled.id, "scheduled_at" := scheduled.scheduledAt];
    } else {
      if body.asStatus.None? {
        return Some(UnmarshalStatusError);
      }
      var posted := body.asStatus.value;
      world.outputs := world.outputs + map["id" := posted.id, "url" := posted.url];
    }
    return None;
  }

  /**
   * `main` after argument parsing: each failed check ends the run before any request is
   * sent; a valid input is posted exactly once.
   */
  method Run(args: ActionInputs, parsed: Option<ParsedTime>, now: int, reply: Reply, world: Effects)
    returns (err: Option<Error>)
    modifies world
    ensures Validate(args, parsed, now).Failure? ==>
              && err == Some(Validate(args, parsed, now).error)
              && world.requests == old(world.requests)
              && world.outputs == old(world.outputs)
    ensures Validate(args, parsed, now).Success? ==>
              var status := Validate(args, parsed, now).value;
              && world.requests == old(world.requests) + [NewRequest(args.url, args.accessToken, status)]
              && (PostOutcome(status, reply).Failure? ==>
                    err == Some(PostOutcome(status, reply).error) && world.outputs == old(world.outputs))
              && (PostOutcome(status, reply).Success? ==>
                    err == None && world.outputs == old(world.outputs) + PostOutcome(status, reply).value)
  {
    if TrimSpace(args.message) == "" {
      return Some(EmptyMessage);
    }
    if !IsValid(args.visibility) {
      return Some(InvalidVisibility(args.visibility));
    }
    var (scheduledAt, scheduleErr) := ParseScheduledAt(args.scheduledAt, parsed, now);
    if scheduleErr.Some? {
      return Some(ScheduledAtError(scheduleErr.value));
    }
    var status := MastodonStatus(args.message, args.visibility, args.sensitive, args.spoilerText, args.language, scheduledAt);
    err := PostStatus(args.url, args.accessToken, status, reply, world);
  }
}
