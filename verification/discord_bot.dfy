/**
 The Discord interaction handler (lambda/discord_bot/index.py).

 A request arrives with signature headers, the raw body text and the body
 already decoded. The handler rejects it unless the Ed25519 signature over
 timestamp‖body checks out, answers the liveness ping, routes commands to
 start, stop or status, and answers anything else with "not found".

 The signature check itself and the instance description are inputs: `verify`
 stands for the Ed25519 verification of a message against a hex public key
 and a hex signature (false whenever it would raise), and `describe` is what
 the instance description returned when asked.
 */
module DiscordBot {
  import opened Wrappers

  const SignatureHeader := "x-signature-ed25519"
  const TimestampHeader := "x-signature-timestamp"

  /** The command registered with Discord; its first option names the action. */
  const RootCommand := "mc"

  const StartMessage := "Minecraftサーバーを起動しました。数分お待ちください。"
  const StopMessage := "Minecraftサーバーを停止しました。"
  const StatusPrefix := "ステータス: "
  const AddressPrefix := "\nIPアドレス: "
  const StatusErrorPrefix := "ステータス取得エラー: "
  const UnknownCommandMessage := "不明なコマンドです。"
  const UsageHint := "/mc [start|stop|status] を指定してください"

  /** Ed25519 verification: (public key hex, signed message, signature hex) to accepted or not. */
  type Verifier = (string, string, string) -> bool

  /** The decoded interaction body: its type, and the command data a type-2 body carries. */
  datatype CommandData = CommandData(name: string, options: seq<string>)
  datatype Payload = Payload(kind: Option<int>, data: CommandData)

  /** `headers` is None when the event has no headers; `body` is None when it has no body text. */
  datatype Request = Request(headers: Option<map<string, string>>, body: Option<string>, payload: Payload)

  /** What describing the instance gave: its state and address, or the text of the error raised. */
  datatype Describe = Described(state: string, publicIp: Option<string>) | DescribeFailed(error: string)

  /** The instance control call a request makes, if any. */
  datatype Action = NoAction | StartInstance | StopInstance

  datatype Body =
    | Pong                      // {"type": 1}
    | Message(content: string)  // {"type": 4, "data": {"content": ...}}
    | Error(error: string)      // {"error": ...}

  datatype Response = Response(statusCode: int, headers: map<string, string>, body: Body)

  datatype Reply = Reply(response: Response, action: Action)

  datatype CommandResult = CommandResult(text: string, action: Action)

  /** Python truthiness of an optional string: present and non-empty. */
  predicate Present(v: Option<string>) {
    v.Some? && v.value != ""
  }

  function Lookup(headers: map<string, string>, name: string): Option<string> {
    if name in headers then Some(headers[name]) else None
  }

  /** verify_signature: a configured key, both headers, and a signature that checks. */
  predicate VerifySignature(publicKey: Option<string>, req: Request, verify: Verifier) {
    && Present(publicKey)
    && req.headers.Some?
    && var signature := Lookup(req.headers.value, SignatureHeader);
       var timestamp := Lookup(req.headers.value, TimestampHeader);
       && Present(signature)
       && Present(timestamp)
       && verify(publicKey.value, timestamp.value + GetOr(req.body, ""), signature.value)
  }

  /** The reply to the status action. */
  function StatusText(describe: Describe): string {
    match describe
    case DescribeFailed(error) => StatusErrorPrefix + error
    case Described(state, ip) =>
      var line := StatusPrefix + state;
      if state == "running" then line + AddressPrefix + GetOr(ip, "None") else line
  }

  /** handle_command: one of the three actions, or the unknown-command reply. */
  function HandleCommand(name: string, describe: Describe): (r: CommandResult)
    ensures r.action == StartInstance <==> name == "start"
    ensures r.action == StopInstance <==> name == "stop"
  {
    if name == "start" then CommandResult(StartMessage, StartInstance)
    else if name == "stop" then CommandResult(StopMessage, StopInstance)
    else if name == "status" then CommandResult(StatusText(describe), NoAction)
    else CommandResult(UnknownCommandMessage, NoAction)
  }

  /** The root command dispatches on its first option; any other command name is itself the action. */
  function RunCommand(data: CommandData, describe: Describe): CommandResult {
    if data.name == RootCommand then
      if |data.options| > 0 then HandleCommand(data.options[0], describe)
      else CommandResult(UsageHint, NoAction)
    else HandleCommand(data.name, describe)
  }

  const Unauthorized := Response(401, map[], Error("invalid request signature"))
  const NotFound := Response(404, map[], Error("not found"))

  /**
   The interaction type as the handler reads it. An event without a body key
   decodes '{}', which has no type, whatever the decoded payload says.
   */
  function Kind(req: Request): Option<int> {
    if req.body.None? then None else req.payload.kind
  }

  /** handler: verify, then ping, then command, else not found. */
  function Handle(publicKey: Option<string>, req: Request, verify: Verifier, describe: Describe): (r: Reply)
    ensures r.response.statusCode in {200, 401, 404}
    ensures r.response.statusCode == 401 <==> !VerifySignature(publicKey, req, verify)
    ensures r.action != NoAction ==> r.response.statusCode == 200 && Kind(req) == Some(2)
  {
    if !VerifySignature(publicKey, req, verify) then Reply(Unauthorized, NoAction)
    else if Kind(req) == Some(1) then Reply(Response(200, map[], Pong), NoAction)
    else if Kind(req) == Some(2) then
      var result := RunCommand(req.payload.data, describe);
      Reply(Response(200, map["Content-Type" := "application/json"], Message(result.text)), result.action)
    else Reply(NotFound, NoAction)
  }

  /** A missing key or a missing signature header is rejected whatever the body says. */
  lemma RejectsMissingCredentials(publicKey: Option<string>, req: Request, verify: Verifier, describe: Describe)
    requires !Present(publicKey) || req.headers.None?
          || !Present(Lookup(req.headers.value, SignatureHeader))
          || !Present(Lookup(req.headers.value, TimestampHeader))
    ensures Handle(publicKey, req, verify, describe) == Reply(Unauthorized, NoAction)
  {
  }

  /** A rejected request gets the same reply whatever payload it carries. */
  lemma RejectionIgnoresPayload(publicKey: Option<string>, req: Request, other: Payload, verify: Verifier, describe: Describe)
    requires !VerifySignature(publicKey, req, verify)
    ensures Handle(publicKey, req, verify, describe) == Handle(publicKey, req.(payload := other), verify, describe)
    ensures Handle(publicKey, req, verify, describe).action == NoAction
  {
    assert !VerifySignature(publicKey, req.(payload := other), verify);
  }

  /** The ping is acknowledged with type 1 and touches nothing. */
  lemma PingAcknowledged(publicKey: Option<string>, req: Request, verify: Verifier, describe: Describe)
    requires VerifySignature(publicKey, req, verify)
    requires Kind(req) == Some(1)
    ensures Handle(publicKey, req, verify, describe) == Reply(Response(200, map[], Pong), NoAction)
  {
  }

  /** A verified request of any type but 1 or 2 is not found. */
  lemma OtherTypesNotFound(publicKey: Option<string>, req: Request, verify: Verifier, describe: Describe)
    ensures Handle(publicKey, req, verify, describe).response.statusCode == 404 <==>
              VerifySignature(publicKey, req, verify) && Kind(req) != Some(1) && Kind(req) != Some(2)
    ensures Handle(publicKey, req, verify, describe).response.statusCode == 404 ==>
              Handle(publicKey, req, verify, describe) == Reply(NotFound, NoAction)
  {
  }

  /** A verified event with no body key is not found and starts or stops nothing. */
  lemma MissingBodyNotFound(publicKey: Option<string>, req: Request, verify: Verifier, describe: Describe)
    requires VerifySignature(publicKey, req, verify)
    requires req.body.None?
    ensures Handle(publicKey, req, verify, describe) == Reply(NotFound, NoAction)
  {
  }

  /**
   A verified command is always a 200 type-4 reply carrying the command's own
   text and action, so a failed status query is error text inside a 200 reply.
   */
  lemma CommandsAnswered(publicKey: Option<string>, req: Request, verify: Verifier, describe: Describe)
    requires VerifySignature(publicKey, req, verify)
    requires Kind(req) == Some(2)
    ensures Handle(publicKey, req, verify, describe).response.statusCode == 200
    ensures Handle(publicKey, req, verify, describe).response.body.Message?
    ensures Handle(publicKey, req, verify, describe).response.headers == map["Content-Type" := "application/json"]
    ensures Handle(publicKey, req, verify, describe).response.body == Message(RunCommand(req.payload.data, describe).text)
    ensures Handle(publicKey, req, verify, describe).action == RunCommand(req.payload.data, describe).action
  {
  }

  /** The root command without options gets the usage hint and starts or stops nothing. */
  lemma RootWithoutOptionsGetsHint(data: CommandData, describe: Describe)
    requires data.name == RootCommand && |data.options| == 0
    ensures RunCommand(data, describe) == CommandResult(UsageHint, NoAction)
  {
  }

  /**
   Under the root command only the first option counts, and it behaves as the
   same name registered as a command of its own.
   */
  lemma RootFirstOptionIsTheCommand(data: CommandData, rest: seq<string>, describe: Describe)
    requires data.name == RootCommand && |data.options| > 0
    ensures data.options[0] != RootCommand ==>
              RunCommand(data, describe) == RunCommand(CommandData(data.options[0], rest), describe)
    ensures RunCommand(data, describe) == RunCommand(CommandData(RootCommand, [data.options[0]] + rest), describe)
  {
  }

  /** Start and stop each make their own call and reply with their fixed text. */
  lemma StartAndStop(describe: Describe)
    ensures HandleCommand("start", describe) == CommandResult(StartMessage, StartInstance)
    ensures HandleCommand("stop", describe) == CommandResult(StopMessage, StopInstance)
  {
  }

  /** A name that is none of the three actions gets the unknown-command text and no call. */
  lemma UnknownCommandDoesNothing(name: string, describe: Describe)
    requires name != "start" && name != "stop" && name != "status"
    ensures HandleCommand(name, describe) == CommandResult(UnknownCommandMessage, NoAction)
  {
  }

  /**
   Status makes no start or stop call (its one call, the describe, is the
   `describe` input). Its text opens with the state line and has the
   address line after it exactly when the state is running; a failed
   description becomes error text instead.
   */
  lemma StatusReport(describe: Describe)
    ensures HandleCommand("status", describe).action == NoAction
    ensures describe.DescribeFailed? ==>
              HandleCommand("status", describe).text == StatusErrorPrefix + describe.error
    ensures describe.Described? ==>
              var line := StatusPrefix + describe.state;
              var text := HandleCommand("status", describe).text;
              && line <= text
              && (|text| > |line| <==> describe.state == "running")
              && (describe.state == "running" ==> text[|line|..] == AddressPrefix + GetOr(describe.publicIp, "None"))
  {
    if describe.Described? {
      var line := StatusPrefix + describe.state;
      if describe.state == "running" {
        var text := line + AddressPrefix + GetOr(describe.publicIp, "None");
        assert text[|line|..] == AddressPrefix + GetOr(describe.publicIp, "None");
      }
    }
  }
}
