# mastodon-github-action, modelled in Dafny

This project models the part of the Mastodon GitHub Action that decides anything. The action posts one status ("toot") to a Mastodon instance from a CI pipeline. It comes in two implementations, and both are modelled:

- **The Go action** (`cmd/mastodon-github-action/main.go`). It rejects a message that is empty after trimming white space. It checks the visibility against the four `VisibilityType` constants. It checks the optional scheduled time with `parseScheduledAt`: the time must be at least five minutes ahead, and it is re-rendered as an RFC 3339 date-time. It builds a `MastodonStatus`, whose optional JSON fields are `omitempty`. It sends one `POST {url}/api/v1/statuses`. `postStatus` then picks the reply shape from the *request's* scheduled time (does it contain `T`?) and sets either the `id` and `scheduled_at` outputs or the `id` and `url` outputs.
- **The legacy JavaScript action** (`src/index.js`). `mastodonSend` requires `MASTODON_URL` and `MASTODON_ACCESS_TOKEN`. It reads its inputs through `core.getInput`, which refuses a missing required message and trims white space. It rejects a message that is empty after trimming. It shortens the message with `trimMessage`. It defaults the visibility to `public` and checks it against the allowed list. Only after all that does it log in and create the status.

Files:

| file | module | models |
|---|---|---|
| `results.dfy` | `Results` | `Option` and `Result` wrappers |
| `trimming.dfy` | `Trimming` | trimming both ends of a string for a given set of space characters |
| `go_strings.dfy` | `GoStrings` | `unicode.IsSpace`, `strings.TrimSpace` |
| `js_strings.dfy` | `JsStrings` | ECMAScript white space and line terminators, `String.prototype.trim` |
| `rfc3339.dfy` | `Rfc3339` | the parsed civil time, its Unix position, its `time.RFC3339` rendering, the date-time grammar of section 5.6 of RFC 3339 |
| `status.dfy` | `Status` | `VisibilityType.IsValid`, `MastodonStatus` and its `omitempty` JSON encoding |
| `action.dfy` | `Action` | `parseScheduledAt`, the checks in `main`, `postStatus`, `main` |
| `legacy_action.dfy` | `LegacyAction` | `core.getInput`, `trimMessage`, `mastodonSend` |

Some things are abstracted as inputs:

- The clock is `now`, in Unix nanoseconds.
- `time.Parse` is `parsed`: the civil date-time it returns, or `None` when it reports an error.
- The HTTP exchange and the decoding of the reply are `reply`: no response, or a status code and a body. The body is its text plus what decoding it into each reply shape gives.
- The legacy client library's outcome is `client`.

State that the code changes in place is held in classes:

- `Action.Effects` records the requests sent and the outputs set.
- `LegacyAction.Core` is the `@actions/core` object: inputs read, outputs, `setFailed` messages.
- `LegacyAction.Server` records logins and created statuses.

Points where the code behaves differently from what one might expect:

- The Go action applies **no** default visibility. An empty visibility fails `IsValid`. Only the legacy action substitutes `public`.
- `time.Parse` with a layout that has no zone yields UTC. So the scheduled time is read as UTC, not as local time, and renders with the offset `Z`.
- A malformed and a too-early scheduled time both end the Go run as a "Scheduled at error". They differ only in their cause (`Action.ScheduleError`).
- `trimMessage` does not keep a message within `n` code units. A longer message comes out `n + 7` long, because the entity `&hellip;` is eight code units.

## Model

| member | source | states |
|---|---|---|
| `GoStrings.TrimSpaceBlank` | cmd/mastodon-github-action/main.go:78 | `strings.TrimSpace(s) == ""` holds exactly when every character of `s` is Unicode white space |
| `Status.IsValidExactly` | cmd/mastodon-github-action/main.go:28-37 | `IsValid` accepts exactly "public", "unlisted", "private" and "direct", case-sensitively; "", "Public" and "followers-only" are refused |
| `Status.MarshalKeys` | cmd/mastodon-github-action/main.go:39-46 | the encoded status opens with `status` and `visibility` holding the record's values; `sensitive` is present only when true; `spoiler_text`, `language` and `scheduled_at` only when non-empty; no other key appears |
| `Status.MarshalRoundTrip` | cmd/mastodon-github-action/main.go:39-46 | decoding the encoded status gives the status back: the omitted fields are exactly the ones holding zero values |
| `Rfc3339.DaysFromCivilCounts` | cmd/mastodon-github-action/main.go:173 | the day count behind the time comparison is 0 on 1970-01-01 and grows by exactly one from each valid date to the next, across month ends, February in leap and common years, and year ends |
| `JsStrings.TrimBlank` | src/index.js:30-36 | `trim` gives "" exactly when every code unit of the string is ECMAScript white space or a line terminator |
| `Rfc3339.FormatIsDateTime` | cmd/mastodon-github-action/main.go:177 | the `time.RFC3339` rendering of a parsed time is a date-time under section 5.6 of RFC 3339 with 'T' at position 10, seconds "00" and offset "Z"; it reads back as the same date, hour and minute and names the same instant (`InstantOf`, which reads any date-time including its fraction and offset) |
| `Action.Until` | cmd/mastodon-github-action/main.go:173 | `time.Until` saturates to the int64 Duration range; the saturation never changes whether the distance is under five minutes, and the value is exact within range |
| `Action.ParseScheduledAt` | cmd/mastodon-github-action/main.go:163-178 | "" gives ("", no error); a parse failure gives ("", invalid date format); a time under five minutes ahead gives ("", too soon); otherwise no error and an RFC 3339 date-time naming the parsed date, hour and minute with seconds "00" and offset "Z", so the same instant as the parsed time, at least five minutes after `now`; every error comes with ""; on success the result contains 'T' exactly when the input was non-empty |
| `Action.Validate` | cmd/mastodon-github-action/main.go:78-98 | the checks run in the order message, visibility, scheduled time, and the first failure decides the error; a blank message fails whatever the other inputs are; success happens exactly when all three pass, and the status then equals the inputs field for field, with `ScheduledAt` from `parseScheduledAt`, containing 'T' exactly when a scheduled time was given |
| `Action.PostOutcome` | cmd/mastodon-github-action/main.go:121-158 | a transport failure or a non-200 status is an error (the latter carries the status and the body text, or "" when that is unreadable); an unreadable 200 body is an error; a 200 body that does not decode into the shape the request's `ScheduledAt` names is the matching unmarshal error; on success the reply was a 200, and the outputs are exactly {id, scheduled_at} when the request's `ScheduledAt` contains 'T' and exactly {id, url} otherwise, with the decoded values; the shape the request names is the only one ever decoded |
| `Action.OutputsFollowScheduling` | cmd/mastodon-github-action/main.go:86-98 | after a valid run posts successfully, the outputs hold `scheduled_at` exactly when a scheduled time was given, `url` exactly when none was, and always `id` |
| `Action.PayloadCarriesInputs` | cmd/mastodon-github-action/main.go:91-106 | for a valid input, the request body opens with the message and the visibility exactly as given, and decodes to the status built from the inputs |
| `Action.PostStatus` | cmd/mastodon-github-action/main.go:105-161 | sends exactly one POST to `{url}/api/v1/statuses` with the bearer token, the JSON content type and the encoded status; on any error it sets no output; on success it adds exactly the outputs `PostOutcome` names |
| `Action.Run` | cmd/mastodon-github-action/main.go:72-103 | a failed check ends the run with that error before any request is sent and without outputs; a valid input is posted exactly once, and the run ends as `postStatus` does |
| `LegacyAction.TrimMessage` | src/index.js:85-87 | a message of at most `n` code units is unchanged; a longer one becomes its first `n - 1` code units followed by "&hellip;", so it is `n + 7` long (for `n < 1`, `slice`'s negative end counts from the back); a shortened message always ends in "&hellip;" |
| `LegacyAction.TrimMessageIdempotent` | src/index.js:85-87 | for every limit of at least one, trimming a trimmed message changes nothing |
| `LegacyAction.InputValue` | src/index.js:30-31 | `getInput`: a required input whose value is empty is the error "Input required and not supplied: <name>"; otherwise the value comes back trimmed, and is "" exactly when it held only white space |
| `LegacyAction.Prepare` | src/index.js:15-56 | a missing or empty `MASTODON_URL` or `MASTODON_ACCESS_TOKEN` fails first, whatever the inputs; then an empty message fails with `getInput`'s required-input error; then a message of white space only fails; then the trimmed visibility, with a blank one replaced by "public", must be one of the allowed four, or the run fails with the visibility error; on success the toot carries the trimmed message shortened by `trimMessage` (1 to 507 code units) and that visibility; every failure carries one of the four error texts |
| `LegacyAction.VisibilityRulesAgree` | src/index.js:46-56 | the legacy allow-list and the Go `IsValid` accept the same values; both refuse "" as such, and neither accepts "followers-only" |
| `LegacyAction.NextLineOnlyGoRejects` | src/index.js:30-36 | a message of Go white space containing U+0085 is refused by the Go checks but passes the legacy checks, because `trim` keeps U+0085 |
| `LegacyAction.ByteOrderMarkOnlyLegacyRejects` | src/index.js:30-36 | a message of JavaScript white space containing U+FEFF passes the Go message check but is refused by the legacy checks, because `unicode.IsSpace` does not count U+FEFF |
| `LegacyAction.Core.GetInput` | src/index.js:30-31 | records that the input was read and returns what `InputValue` states: the required-input error or the trimmed value |
| `LegacyAction.MastodonSend` | src/index.js:13-83 | no input is read before the environment check passes; the visibility is not read when the message input is empty; any failed check goes to `setFailed` with nothing sent to the server and no output set; otherwise it logs in once with the URL, the token and timeout 1800; it creates the prepared toot unless login failed; on publication it sets `ts` and `url`; every thrown error goes to `setFailed` |

## Left out

- HTTP transport (cmd/mastodon-github-action/main.go:111-125). Building the request is modelled. Sending it, the 10-second timeout and closing the body are one `reply` parameter. The error `http.NewRequest` raises for an unparsable URL is not modelled, because URL parsing is not part of this model.
- `json.Marshal` failure (cmd/mastodon-github-action/main.go:106-109): left out, because a record of strings and a boolean always encodes.
- JSON byte syntax: left out. Payloads are lists of key/value members. The reply is decoded by the `reply` parameter.
- `Status.Unmarshal`: it reads only the key spellings and value kinds the encoder writes. It skips other members. `encoding/json`'s case-insensitive key matching and its type-mismatch errors are not modelled, because the decoder is only the partner for the round trip.
- `time.Parse` itself: left out, because its text-parsing rules belong to the Go library. Its result is the `parsed` parameter, a valid civil date-time with a four-digit year.
- `Time.String` for the reply's `scheduled_at`: left out, for the same reason. The decoded rendering is an abstract string in the reply.
- Reading the body of a non-200 reply: a failed read is modelled as the empty text. The model drops any partial data `io.ReadAll` returned.
- Logging (`log.Printf`, the text of `log.Fatal`) and the process exit: left out as I/O. A fatal end is the returned `Action.Error`.
- Argument parsing with `go-arg` and the build metadata globals: left out, because they decide nothing the model covers.
- Writing outputs (cmd/mastodon-github-action/output.go): left out as file and stdout I/O. Setting outputs is a merge into `Effects.outputs`, where later keys win. The file's iteration order is unspecified and not modelled.
- Go strings are byte strings. `GoStrings` works on characters, so `TrimSpace` on invalid UTF-8 is not modelled.
- `@actions/core.getInput`'s `trimWhitespace: false` option: unused by the action, so always trimming is modelled. Reading the value from `process.env` is the `inputs` map, keyed by input name.
- JavaScript strings are sequences of UTF-16 code units, and a character is one code unit here. Surrogate pairs, which `slice` can split, are not modelled.
- The `masto` client: login, the network call and the returned object are the `client` parameter. `disableVersionCheck` is not recorded. `console.log` and the clock text are I/O; the clock text is the `time` parameter.
- `LegacyAction.TrimMessageIdempotent`: stated only for limits of at least one, because for some `n < 1` a second trim changes the message again: for `n = 0` it drops the last code unit and appends another `&hellip;`. The only caller passes 500.
