/**
 * The legacy JavaScript action: `mastodonSend` checks the environment and the inputs,
 * shortens the message with `trimMessage`, then logs in and creates the status.
 *
 * JavaScript strings are modelled as sequences with one element per UTF-16 code unit,
 * which is what `length`, `slice` and `trim` count. The `@actions/core` object and the Mastodon
 * server are objects whose state the action changes; the outcome of the client library's
 * login and create calls is a parameter.
 */
module LegacyAction {
  import opened Results
  import opened GoStrings
  import opened JsStrings
  import Status
  import Action
  import Rfc3339

  const Direct := "direct"
  const Public := "public"
  const Unlisted := "unlisted"
  const FollowersOnly := "private"

  const AllowedVisibilities := [Direct, Public, Unlisted, FollowersOnly]

  const MaxCharsCount := 500
  const Ellipsis := "&hellip;"

  /** The `timeout` passed to `login`. */
  const LoginTimeout := 3 * 60 * 10

  const MissingEnvMessage := "Need to provide MASTODON_URL and MASTODON_ACCESS_TOKEN"
  const MissingContentMessage := "Need to provide content to be published"
  const RequiredPrefix := "Input required and not supplied: "
  const RequiredMessageMessage := RequiredPrefix + "message"
  const VisibilityMessage := "Visibility must be one of the following values: direct, public, unlisted, followers-only"

  /** How `slice` resolves an index against a length: negative indexes count from the end. */
  function SliceIndex(len: nat, k: int): (i: nat)
    ensures i <= len
  {
    if k < 0 then (if len + k < 0 then 0 else len + k) else if k > len then len else k
  }

  /** `String.prototype.slice(start, end)`. */
  function Slice(s: string, start: int, end: int): string {
    var from, to := SliceIndex(|s|, start), SliceIndex(|s|, end);
    if from < to then s[from..to] else ""
  }

  /**
   * `trimMessage(message, n)`: a message longer than n is cut to its first n - 1 code units
   * and "&hellip;" is appended, which leaves it 7 longer than n; a shorter one is untouched.
   */
  function TrimMessage(message: string, n: int): (r: string)
    ensures |message| <= n ==> r == message
    ensures 1 <= n < |message| ==> r == message[..n - 1] + Ellipsis && |r| == n + 7
    ensures n < 1 && n < |message| ==>
              r == message[..if |message| + n - 1 < 0 then 0 else |message| + n - 1] + Ellipsis
    ensures |message| > n ==> |r| > n && r[|r| - |Ellipsis|..] == Ellipsis
  {
    if |message| > n then Slice(message, 0, n - 1) + Ellipsis else message
  }

  /** For every limit the source could pass (at least one), trimming twice is trimming once. */
  lemma TrimMessageIdempotent(message: string, n: int)
    requires n >= 1
    ensures TrimMessage(TrimMessage(message, n), n) == TrimMessage(message, n)
  {
    if |message| > n {
      var once := TrimMessage(message, n);
      assert once[..n - 1] == message[..n - 1];
    }
  }

  /** What `statuses.create` is given. */
  datatype Toot = Toot(status: string, visibility: string)

  /** What `login` is given. */
  datatype Login = Login(url: string, accessToken: string, timeout: int)

  /** The raw value of an input (its `INPUT_<NAME>` variable), or "" when the workflow sets none. */
  function RawInput(inputs: map<string, string>, name: string): string {
    if name in inputs then inputs[name] else ""
  }

  /**
   * `core.getInput(name, { required })`: a required input whose raw value is empty is an
   * error; otherwise the value comes back trimmed, and is empty exactly when the raw value
   * held only white space.
   */
  function InputValue(inputs: map<string, string>, name: string, required: bool): (r: Result<string, string>)
    ensures required && RawInput(inputs, name) == "" ==> r == Failure(RequiredPrefix + name)
    ensures !required || RawInput(inputs, name) != "" ==> r.Success?
    ensures r.Success? ==> r.value == Trim(RawInput(inputs, name))
    ensures r.Success? ==> (r.value == "" <==> AllJsSpace(RawInput(inputs, name)))
  {
    var raw := RawInput(inputs, name);
    TrimBlank(raw);
    if required && raw == "" then Failure(RequiredPrefix + name) else Success(Trim(raw))
  }

  /** `MASTODON_URL` or `MASTODON_ACCESS_TOKEN` is undefined or empty. */
  predicate EnvMissing(env: map<string, string>) {
    || "MASTODON_URL" !in env || |env["MASTODON_URL"]| <= 0
    || "MASTODON_ACCESS_TOKEN" !in env || |env["MASTODON_ACCESS_TOKEN"]| <= 0
  }

  /**
   * The checks `mastodonSend` makes before contacting the server, in its order, and the
   * status it then sends; a failure carries the text of the error thrown.
   */
  function Prepare(env: map<string, string>, inputs: map<string, string>): (r: Result<Toot, string>)
    ensures EnvMissing(env) ==> r == Failure(MissingEnvMessage)
    ensures !EnvMissing(env) && RawInput(inputs, "message") == "" ==> r == Failure(RequiredMessageMessage)
    ensures !EnvMissing(env) && RawInput(inputs, "message") != "" && AllJsSpace(RawInput(inputs, "message")) ==>
              r == Failure(MissingContentMessage)
    ensures !EnvMissing(env) && !AllJsSpace(RawInput(inputs, "message")) ==>
              (r.Success? <==> AllJsSpace(RawInput(inputs, "visibility"))
                               || Trim(RawInput(inputs, "visibility")) in AllowedVisibilities)
    ensures !EnvMissing(env) && !AllJsSpace(RawInput(inputs, "message")) && r.Failure? ==> r.error == VisibilityMessage
    ensures r.Failure? ==> r.error in {MissingEnvMessage, RequiredMessageMessage, MissingContentMessage, VisibilityMessage}
    ensures r.Success? ==>
              && r.value.status == TrimMessage(Trim(RawInput(inputs, "message")), MaxCharsCount)
              && 0 < |r.value.status| <= MaxCharsCount + |Ellipsis|
              && r.value.visibility in AllowedVisibilities
              && r.value.visibility == if AllJsSpace(RawInput(inputs, "visibility")) then Public
                                       else Trim(RawInput(inputs, "visibility"))
  {
    if EnvMissing(env) then Failure(MissingEnvMessage)
    else
      match InputValue(inputs, "message", true)
      case Failure(e) => Failure(e)
      case Success(message) =>
        var visibility := InputValue(inputs, "visibility", false).value;
        if message == "" then Failure(MissingContentMessage)
        else
          var trimmed := TrimMessage(message, MaxCharsCount);
          var chosen := if visibility == "" then Public else visibility;
          if chosen !in AllowedVisibilities then Failure(VisibilityMessage)
          else Success(Toot(trimmed, chosen))
  }

  /**
   * The two actions accept the same four visibilities, case-sensitively; the empty one is
   * refused by the Go action while the legacy one replaces it with "public" (see Prepare),
   * and neither accepts "followers-only", the name its own error text offers.
   */
  lemma VisibilityRulesAgree(v: string)
    ensures v in AllowedVisibilities <==> Status.IsValid(v)
    ensures "" !in AllowedVisibilities && !Status.IsValid("")
    ensures "followers-only" !in AllowedVisibilities
  {
  }

  /**
   * Go and JavaScript disagree on one white-space character each way. A message of Go
   * white space that includes U+0085 (NEXT LINE) is refused by the Go action, but `trim`
   * keeps U+0085, so the legacy action posts it.
   */
  lemma NextLineOnlyGoRejects(message: string, env: map<string, string>, args: Action.ActionInputs,
                              parsed: Results.Option<Rfc3339.ParsedTime>, now: int)
    requires AllSpace(message) && '\U{85}' in message
    requires !EnvMissing(env)
    requires args.message == message
    ensures Action.Validate(args, parsed, now) == Failure(Action.EmptyMessage)
    ensures Prepare(env, map["message" := message]).Success?
  {
    var inputs := map["message" := message];
    var i :| 0 <= i < |message| && message[i] == '\U{85}';
    assert !IsJsSpace(message[i]);
    assert RawInput(inputs, "message") == message;
    assert RawInput(inputs, "visibility") == "";
  }

  /**
   * The other way round: a message of JavaScript white space that includes U+FEFF (ZERO
   * WIDTH NO-BREAK SPACE) passes the Go action's message check, which does not count
   * U+FEFF as space, but the legacy action trims it away and refuses it.
   */
  lemma ByteOrderMarkOnlyLegacyRejects(message: string, env: map<string, string>, args: Action.ActionInputs,
                                       parsed: Results.Option<Rfc3339.ParsedTime>, now: int)
    requires AllJsSpace(message) && '\U{FEFF}' in message
    requires !EnvMissing(env)
    requires args.message == message
    ensures Action.Validate(args, parsed, now) != Failure(Action.EmptyMessage)
    ensures Prepare(env, map["message" := message]) == Failure(MissingContentMessage)
  {
    var inputs := map["message" := message];
    var i :| 0 <= i < |message| && message[i] == '\U{FEFF}';
    assert !IsSpace(message[i]);
    assert RawInput(inputs, "message") == message;
  }

  /** The `@actions/core` object as the action uses it. */
  class Core {
    /** The raw input values (`INPUT_<NAME>`), by input name. */
    const inputs: map<string, string>
    /** The names passed to `getInput`, in order. */
    var inputsRead: seq<string>
    /** The outputs set with `setOutput`. */
    var outputs: map<string, string>
    /** The messages passed to `setFailed`. */
    var failures: seq<string>

    constructor (inputs: map<string, string>)
      ensures this.inputs == inputs && inputsRead == [] && outputs == map[] && failures == []
    {
      this.inputs := inputs;
      inputsRead := [];
      outputs := map[];
      failures := [];
    }

    /** `getInput(name, { required })`: records the read, then fails or returns the value trimmed. */
    method GetInput(name: string, required: bool) returns (r: Result<string, string>)
      modifies this`inputsRead
      ensures r == InputValue(inputs, name, required)
      ensures inputsRead == old(inputsRead) + [name]
    {
      inputsRead := inputsRead + [name];
      var raw := if name in inputs then inputs[name] else "";
      if required && raw == "" {
        return Failure(RequiredPrefix + name);
      }
      return Success(Trim(raw));
    }
  }

  /** What the Mastodon server has been asked to do. */
  class Server {
    var logins: seq<Login>
    var created: seq<Toot>

    constructor ()
      ensures logins == [] && created == []
    {
      logins := [];
      created := [];
    }
  }

  /** How the client library's calls end: `login` throws, `create` throws, or the status is published at a URL. */
  datatype ClientReply = LoginFails(error: string) | CreateFails(error: string) | Published(url: string)

  /**
   * `mastodonSend`: no input is read until the environment check passes, and nothing
   * reaches the server until every check passes; every thrown error ends up in `setFailed`.
   * `time` is what `new Date().toTimeString()` returns.
   */
  method MastodonSend(env: map<string, string>, client: ClientReply, time: string, core: Core, server: Server)
    modifies core, server
    ensures EnvMissing(env) ==> core.inputsRead == old(core.inputsRead)
    ensures !EnvMissing(env) && RawInput(core.inputs, "message") == "" ==>
              core.inputsRead == old(core.inputsRead) + ["message"]
    ensures !EnvMissing(env) && RawInput(core.inputs, "message") != "" ==>
              core.inputsRead == old(core.inputsRead) + ["message", "visibility"]
    ensures Prepare(env, core.inputs).Failure? ==>
              && core.failures == old(core.failures) + [Prepare(env, core.inputs).error]
              && core.outputs == old(core.outputs)
              && server.logins == old(server.logins)
              && server.created == old(server.created)
    ensures Prepare(env, core.inputs).Success? ==>
              && server.logins == old(server.logins) + [Login(env["MASTODON_URL"], env["MASTODON_ACCESS_TOKEN"], LoginTimeout)]
              && server.created == (if client.LoginFails? then old(server.created)
                                    else old(server.created) + [Prepare(env, core.inputs).value])
              && core.failures == (if client.Published? then old(core.failures) else old(core.failures) + [client.error])
              && core.outputs == (if client.Published? then old(core.outputs)["ts" := time]["url" := client.url]
                                  else old(core.outputs))
  {
    if EnvMissing(env) {
      core.failures := core.failures + [MissingEnvMessage];
      return;
    }
    var mastodonUrl, mastodonAccessToken := env["MASTODON_URL"], env["MASTODON_ACCESS_TOKEN"];

    var messageInput := core.GetInput("message", true);
    if messageInput.Failure? {
      core.failures := core.failures + [messageInput.error];
      return;
    }
    var message := messageInput.value;
    var visibilityInput := core.GetInput("visibility", false);
    var visibility := visibilityInput.value;
    if message == "" {
      core.failures := core.failures + [MissingContentMessage];
      return;
    }
    message := TrimMessage(message, MaxCharsCount);
    if visibility == "" {
      visibility := Public;
    }
    if visibility !in AllowedVisibilities {
      core.failures := core.failures + [VisibilityMessage];
      return;
    }

    server.logins := server.logins + [Login(mastodonUrl, mastodonAccessToken, LoginTimeout)];
    if client.LoginFails? {
      core.failures := core.failures + [client.error];
      return;
    }
    server.created := server.created + [Toot(message, visibility)];
    if client.CreateFails? {
      core.failures := core.failures + [client.error];
      return;
    }
    core.outputs := core.outputs["ts" := time];
    core.outputs := core.outputs["url" := client.url];
  }
}
