/** The `POST /analyze` handler as a pure function from the configuration,
    the request, the outcomes of everything outside the process, and the
    temporary files on disk, to the HTTP status, the reply envelope, the
    disk afterwards and the steps taken. */
module Handler {
  import opened Common
  import opened Text
  import opened Effects
  import opened ImageFile
  import opened Providers

  const DefaultSecret := "devsecret"
  const ModeAuto := "auto"
  const Unauthorized := "unauthorized"
  const InvalidJson := "invalid json payload"
  const BadImage := "bad image base64"
  const NoProviderMessage := "No AI provider configured. Set GEMINI_API_KEY or OPENAI_API_KEY on the server."
  const ProviderError := "AI provider error"

  /** Process configuration, read once from the environment at start-up. */
  datatype Config = Config(
    geminiKey: Option<string>,
    openAiKey: Option<string>,
    backendSecret: string,   // `BACKEND_SECRET`, `"devsecret"` when unset
    defaultModel: string,    // `DEFAULT_MODEL`, `"gemini-2.5-pro"` when unset
    systemPrompt: string)

  /** The `x-backend-secret` header and the parsed JSON body, when it is an
      object of string fields; `None` stands for a falsy JSON value other than
      `{}` (`null`, `[]`, `""`, `0`, `false`), which `not data` rejects the
      same way. */
  datatype Request = Request(secretHeader: Option<string>, body: Option<map<string, string>>)

  /** Everything outside the process the handler depends on. */
  datatype World = World(
    decode: string -> Result<Bytes>,   // `base64.b64decode`
    fs: FsFaults,
    gemini: GeminiApi,
    openAi: OpenAiApi)

  /** The JSON reply: `{status:"ok", reply_text, reply_type, meta:{used_provider}}`
      or `{status:"error", message, error?}`. */
  datatype Envelope =
    | Success(replyText: Json, replyType: string, usedProvider: string)
    | Failure(message: string, error: Option<string>)

  datatype Response = Response(status: int, envelope: Envelope, disk: Disk, trace: seq<Event>)

  /** The fields the handler reads from the body, with their defaults. */
  datatype Fields = Fields(mode: string, text: string, image: Option<string>)

  /** Which provider serves the request: the first configured one, in a fixed order. */
  datatype Provider = Gemini | OpenAi | NoProvider

  /** The shared-secret gate lets the request through. */
  predicate Admits(secret: string, header: Option<string>)
  {
    !(secret != DefaultSecret && header != Some(secret))
  }

  /** The default secret disarms the gate; otherwise the header must carry
      the secret itself, so a request without the header is refused. */
  lemma AdmitsExactly(secret: string, header: Option<string>)
    ensures Admits(secret, header) <==> secret == DefaultSecret || header == Some(secret)
    ensures header.None? ==> (Admits(secret, header) <==> secret == DefaultSecret)
  {
  }

  /** `data.get(...)` for each field the handler uses. */
  function ReadFields(data: map<string, string>): Fields
  {
    Fields(
      if "mode" in data then data["mode"] else ModeAuto,
      if "message_text" in data then data["message_text"] else "",
      if "image_base64" in data then Some(data["image_base64"]) else None)
  }

  /** A present key gives its value and a missing one the default; the image
      counts as given exactly when its key holds a non-empty string. */
  lemma ReadFieldsDefaults(data: map<string, string>)
    ensures var f := ReadFields(data);
      && ("mode" in data ==> f.mode == data["mode"])
      && ("mode" !in data ==> f.mode == ModeAuto)
      && ("message_text" in data ==> f.text == data["message_text"])
      && ("message_text" !in data ==> f.text == "")
      && (f.image.Some? <==> "image_base64" in data)
      && (f.image.Some? ==> f.image.value == data["image_base64"])
      && (Truthy(f.image) <==> "image_base64" in data && data["image_base64"] != "")
  {
  }

  /** The text sent to the provider: the message, preceded by an upper-cased
      mode marker unless the mode is `"auto"`. */
  function BuildPrompt(mode: string, text: string): (p: string)
    ensures mode == ModeAuto ==> p == text
    ensures mode != ModeAuto ==> p == "[MODE: " + Upper(mode) + "]\n\n" + text
    ensures |p| >= |text| && p[|p| - |text|..] == text
    ensures mode != ModeAuto ==> !IsBlank(p)
  {
    if mode != ModeAuto then
      var p := "[MODE: " + Upper(mode) + "]\n\n" + text;
      assert p[0] == '[';
      p
    else
      text
  }

  function SelectProvider(cfg: Config): Provider
  {
    if Truthy(cfg.geminiKey) then Gemini
    else if Truthy(cfg.openAiKey) then OpenAi
    else NoProvider
  }

  /** The selected provider is the first, in the order Gemini then OpenAI,
      whose key is truthy. */
  lemma SelectProviderOrder(cfg: Config)
    ensures SelectProvider(cfg) == Gemini <==> Truthy(cfg.geminiKey)
    ensures SelectProvider(cfg) == OpenAi <==> !Truthy(cfg.geminiKey) && Truthy(cfg.openAiKey)
    ensures SelectProvider(cfg) == NoProvider <==> !Truthy(cfg.geminiKey) && !Truthy(cfg.openAiKey)
  {
  }

  /** The status and envelope of the `try` block at the provider call,
      before its `finally` runs. */
  datatype Attempt = Attempt(status: int, envelope: Envelope, disk: Disk, trace: seq<Event>)

  /** Turns a provider call into the envelope the handler returns. */
  function Settle(c: Call, used: string): (a: Attempt)
    ensures a.disk == c.disk && a.trace == c.trace
    ensures c.result.Err? ==> a.status == 500 && a.envelope == Failure(ProviderError, Some(c.result.error))
    ensures c.result.Ok? ==>
      a.status == 200 && a.envelope == Success(c.result.value.text, c.result.value.replyType, used)
  {
    match c.result
    case Err(e) => Attempt(500, Failure(ProviderError, Some(e)), c.disk, c.trace)
    case Ok(reply) => Attempt(200, Success(reply.text, reply.replyType, used), c.disk, c.trace)
  }

  /** The `try` block: dispatch to the selected provider. */
  function Dispatch(cfg: Config, prompt: string, image: Option<Bytes>, w: World, disk: Disk): (a: Attempt)
    requires Wf(disk)
    ensures Wf(a.disk)
    ensures disk.live <= a.disk.live
    ensures a.status in {200, 500}
    ensures a.status == 200 <==> a.envelope.Success?
    ensures a.status == 200 ==> a.envelope.replyType == Analysis
    ensures !Truthy(cfg.geminiKey) && !Truthy(cfg.openAiKey) ==>
      a == Attempt(500, Failure(NoProviderMessage, None), disk, [])
    ensures Truthy(cfg.geminiKey) ==> NoOpenAiCall(a.trace)
    ensures Truthy(cfg.geminiKey) && a.status == 200 ==>
      && w.gemini.generate.Ok?
      && a.envelope == Success(GeminiReplyText(w.gemini.generate.value), Analysis, "gemini")
      && |a.trace| > 0 && a.trace[|a.trace| - 1].Generated?
    ensures !Truthy(cfg.geminiKey) && Truthy(cfg.openAiKey) ==>
      a.trace == [Posted(OpenAiModel, cfg.systemPrompt, prompt)] && a.disk == disk
    ensures !Truthy(cfg.geminiKey) && a.status == 200 ==>
      && w.openAi.response.Ok?
      && a.envelope == Success(OpenAiReplyText(w.openAi.response.value, w.openAi.dumps), Analysis, "openai")
  {
    match SelectProvider(cfg)
    case NoProvider => Attempt(500, Failure(NoProviderMessage, None), disk, [])
    case Gemini =>
      Settle(CallGemini(cfg.geminiKey, cfg.defaultModel, cfg.systemPrompt, prompt, image, w.gemini, disk), "gemini")
    case OpenAi =>
      Settle(CallOpenAi(cfg.openAiKey, cfg.systemPrompt, prompt, w.openAi, disk), "openai")
  }

  /** The `finally` clause: remove the recorded image file, if any, and
      prepend the steps taken before the `try`. */
  function Finally(before: seq<Event>, a: Attempt, path: Option<Path>): (r: Response)
    requires Wf(a.disk)
    ensures Wf(r.disk)
    ensures r.status == a.status && r.envelope == a.envelope
    ensures path.Some? ==> path.value !in r.disk.live && r.disk.live == a.disk.live - {path.value}
    ensures path.None? ==> r.disk == a.disk
    ensures r.trace == before + a.trace + (if path.Some? then [Removed(path.value)] else [])
  {
    match path
    case None => Response(a.status, a.envelope, a.disk, before + a.trace)
    case Some(p) => Response(a.status, a.envelope, RemoveTemp(a.disk, p), before + a.trace + [Removed(p)])
  }

  /** `analyze()`. */
  function Analyze(cfg: Config, req: Request, w: World, disk: Disk): (r: Response)
    requires Wf(disk)
    ensures Wf(r.disk)
    ensures r.status in {200, 400, 401, 500}
    ensures r.status == 200 <==> r.envelope.Success?
    ensures r.envelope.Success? ==> r.envelope.replyType == Analysis
    ensures disk.live <= r.disk.live
  {
    if !Admits(cfg.backendSecret, req.secretHeader) then
      Response(401, Failure(Unauthorized, None), disk, [])
    else if req.body.None? || |req.body.value| == 0 then
      Response(400, Failure(InvalidJson, None), disk, [])
    else
      var fields := ReadFields(req.body.value);
      var prompt := BuildPrompt(fields.mode, fields.text);
      if Truthy(fields.image) then
        var loaded := LoadImage(fields.image.value, w.decode, w.fs, disk);
        match loaded.result
        case Err(e) => Response(400, Failure(BadImage, Some(e)), loaded.disk, loaded.trace)
        case Ok(saved) =>
          Finally(loaded.trace, Dispatch(cfg, prompt, Some(saved.bytes), w, loaded.disk), Some(saved.path))
      else
        Finally([], Dispatch(cfg, prompt, None, w, disk), None)
  }
}
