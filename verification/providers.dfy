/** The two upstream providers, `call_gemini_api` and `call_openai_chat`,
    with the network and the SDK replaced by abstract outcomes. */
module Providers {
  import opened Common
  import opened Text
  import opened Effects

  const GeminiKeyMissing := "GEMINI_API_KEY not set on server."
  const SdkMissing := "google-genai SDK not installed. pip install google-genai"
  const OpenAiKeyMissing := "OPENAI_API_KEY not set on server."
  const GeminiPlaceholder := "No textual response from Gemini."
  const FallbackGeminiModel := "gemini-2.5-pro"
  const OpenAiModel := "gpt-4o"
  const Analysis := "analysis"

  /** What `generate_content` returned: the `.text` attribute, `None` when
      reading it raises, and `str(response)`, `None` when that raises. */
  datatype GeminiResponse = GeminiResponse(text: Option<Json>, rendered: Option<string>)

  /** How each step of the Gemini SDK turns out: whether the SDK imports,
      whether building the client raises, what writing, flushing and closing
      Gemini's own temporary file raises, what `files.upload` yields, whether
      `GenerateContentConfig` can be built, and what `generate_content` yields. */
  datatype GeminiApi = GeminiApi(
    sdkInstalled: bool,
    clientError: Option<string>,
    fileWrite: Option<string>,
    upload: Result<string>,
    configBuilds: bool,
    generate: Result<GeminiResponse>)

  /** How the chat-completions round trip turns out: the parsed body, or the
      message of whatever `post`, `raise_for_status` or `json` raised; and
      `json.dumps`, which is opaque. */
  datatype OpenAiApi = OpenAiApi(response: Result<Json>, dumps: Json -> string)

  /** The provider's reply dictionary, reduced to the keys the handler reads. */
  datatype Reply = Reply(text: Json, replyType: string)

  /** The outcome of a provider call, the disk after it, and its steps. */
  datatype Call = Call(result: Result<Reply>, disk: Disk, trace: seq<Event>)

  /** The content list for `generate_content`: the uploaded image first when
      there is one, then the prompt when it is not blank. */
  function GeminiContents(uploaded: Option<string>, prompt: string): (cs: seq<Content>)
    ensures |cs| <= 2
    ensures uploaded.Some? ==> |cs| >= 1 && cs[0] == FilePart(uploaded.value)
    ensures uploaded.None? ==> forall c :: c in cs ==> c.TextPart?
    ensures TextPart(prompt) in cs <==> !IsBlank(prompt)
    ensures forall c :: c in cs ==> c == TextPart(prompt) || (uploaded.Some? && c == FilePart(uploaded.value))
    ensures |cs| == (if uploaded.Some? then 1 else 0) + (if IsBlank(prompt) then 0 else 1)
  {
    (if uploaded.Some? then [FilePart(uploaded.value)] else [])
    + (if IsBlank(prompt) then [] else [TextPart(prompt)])
  }

  /** `DEFAULT_MODEL or "gemini-2.5-pro"`. */
  function GeminiModel(configured: string): (m: string)
    ensures m != ""
    ensures configured == "" ==> m == FallbackGeminiModel
    ensures configured != "" ==> m == configured
  {
    if configured == "" then FallbackGeminiModel else configured
  }

  /** The reply text of a Gemini response, with its two fallbacks. */
  function GeminiReplyText(resp: GeminiResponse): (t: Json)
    ensures resp.text.Some? ==> t == resp.text.value
    ensures resp.text.None? && resp.rendered.Some? ==> t == JStr(resp.rendered.value)
    ensures resp.text.None? && resp.rendered.None? ==> t == JStr(GeminiPlaceholder)
  {
    match resp.text
    case Some(t) => t
    case None =>
      match resp.rendered
      case Some(r) => JStr(r)
      case None => JStr(GeminiPlaceholder)
  }

  /** `j["choices"][0]["message"]["content"]`, or `None` where one of the
      lookups raises. */
  function ChoiceContent(j: Json): Option<Json>
  {
    if j.JObj? && "choices" in j.fields then
      var choices := j.fields["choices"];
      if choices.JArr? && |choices.items| > 0 then
        var first := choices.items[0];
        if first.JObj? && "message" in first.fields then
          var message := first.fields["message"];
          if message.JObj? && "content" in message.fields then Some(message.fields["content"])
          else None
        else None
      else None
    else None
  }

  /** A chat-completions body whose first choice carries `content`; `extra`
      stands for any other fields and choices the body may hold. */
  function CompletionBody(content: Json, extra: map<string, Json>, more: seq<Json>,
                          messageExtra: map<string, Json>, choiceExtra: map<string, Json>): Json
  {
    JObj(extra["choices" := JArr([JObj(choiceExtra["message" := JObj(messageExtra["content" := content])])] + more)])
  }

  /** The reply text of an OpenAI response body: the first choice's content
      when that shape exists, and otherwise the whole body serialised. */
  function OpenAiReplyText(j: Json, dumps: Json -> string): Json
  {
    match ChoiceContent(j)
    case Some(c) => c
    case None => JStr(dumps(j))
  }

  /** Any well-shaped completion yields its first choice's content, whatever
      else the body carries. */
  lemma OpenAiReplyOfCompletion(content: Json, extra: map<string, Json>, more: seq<Json>,
                                messageExtra: map<string, Json>, choiceExtra: map<string, Json>,
                                dumps: Json -> string)
    ensures OpenAiReplyText(CompletionBody(content, extra, more, messageExtra, choiceExtra), dumps) == content
  {
  }

  /** Exactly the bodies without that shape fall back to the serialised body. */
  lemma OpenAiReplyFallback(j: Json, dumps: Json -> string)
    ensures OpenAiReplyText(j, dumps) == JStr(dumps(j)) <==>
      (ChoiceContent(j).None? || ChoiceContent(j) == Some(JStr(dumps(j))))
    ensures ChoiceContent(j).Some? <==>
      exists content, extra, more, messageExtra, choiceExtra ::
        j == CompletionBody(content, extra, more, messageExtra, choiceExtra)
  {
    if ChoiceContent(j).Some? {
      var choices := j.fields["choices"];
      var first := choices.items[0];
      var message := first.fields["message"];
      var content := message.fields["content"];
      var extra := j.fields - {"choices"};
      var more := choices.items[1..];
      var choiceExtra := first.fields - {"message"};
      var messageExtra := message.fields - {"content"};
      assert message == JObj(messageExtra["content" := content]);
      assert first == JObj(choiceExtra["message" := message]);
      assert choices == JArr([first] + more);
      assert j == CompletionBody(content, extra, more, messageExtra, choiceExtra);
    }
  }

  /** `call_gemini_api`. A non-empty image is written to a second temporary
      file and uploaded; that file is never removed, not even when writing it
      fails and the upload is never attempted. */
  function CallGemini(key: Option<string>, model: string, systemPrompt: string, prompt: string,
                      image: Option<Bytes>, api: GeminiApi, disk: Disk): (c: Call)
    requires Wf(disk)
    ensures Wf(c.disk)
    ensures disk.live <= c.disk.live
    ensures c.disk.live == disk.live + (if CreatesUploadFile(key, image, api) then {disk.next} else {})
    ensures NoOpenAiCall(c.trace)
    ensures c.result.Ok? ==> api.generate.Ok? && c.result.value == Reply(GeminiReplyText(api.generate.value), Analysis)
  {
    if !Truthy(key) then Call(Err(GeminiKeyMissing), disk, [])
    else if !api.sdkInstalled then Call(Err(SdkMissing), disk, [])
    else if api.clientError.Some? then Call(Err(api.clientError.value), disk, [])
    else if Truthy(image) then
      var (p, d) := CreateTemp(disk);
      if api.fileWrite.Some? then Call(Err(api.fileWrite.value), d, [Created(p)])
      else
      var steps := [Created(p), Uploaded(p)];
      match api.upload
      case Err(e) => Call(Err(e), d, steps)
      case Ok(handle) => Generate(model, systemPrompt, prompt, Some(handle), api, d, steps)
    else
      Generate(model, systemPrompt, prompt, None, api, disk, [])
  }

  /** Before anything is sent, `call_gemini_api` fails on a missing key, a
      missing SDK or a client that cannot be built, each with its own message. */
  lemma CallGeminiFailsEarly(key: Option<string>, model: string, systemPrompt: string, prompt: string,
                             image: Option<Bytes>, api: GeminiApi, disk: Disk)
    requires Wf(disk)
    ensures var c := CallGemini(key, model, systemPrompt, prompt, image, api, disk);
      && (!Truthy(key) ==> c == Call(Err(GeminiKeyMissing), disk, []))
      && (Truthy(key) && !api.sdkInstalled ==> c == Call(Err(SdkMissing), disk, []))
      && (Truthy(key) && api.sdkInstalled && api.clientError.Some? ==>
            c == Call(Err(api.clientError.value), disk, []))
  {
  }

  /** With an image, `call_gemini_api` creates a fresh file. A failed write
      ends the call with its message before any upload; otherwise the file is
      uploaded, a failed upload ends the call with its message, and a handle
      goes to `generate_content` as the first content, ahead of the prompt. */
  lemma CallGeminiUploadsImage(key: Option<string>, model: string, systemPrompt: string, prompt: string,
                               image: Option<Bytes>, api: GeminiApi, disk: Disk)
    requires Wf(disk)
    requires CreatesUploadFile(key, image, api)
    ensures var c := CallGemini(key, model, systemPrompt, prompt, image, api, disk);
      && |c.trace| >= 1 && c.trace[0] == Created(disk.next)
      && (api.fileWrite.Some? ==> c.result == Err(api.fileWrite.value) && c.trace == [Created(disk.next)])
      && (api.fileWrite.None? ==> |c.trace| >= 2 && c.trace[1] == Uploaded(disk.next))
      && (api.fileWrite.None? && api.upload.Err? ==> c.result == Err(api.upload.error) && |c.trace| == 2)
      && (api.fileWrite.None? && api.upload.Ok? ==>
            && c.trace == [Created(disk.next), Uploaded(disk.next),
                           Generated(GeminiModel(model), GeminiContents(Some(api.upload.value), prompt),
                                     Instruction(api, systemPrompt))]
            && c.trace[2].contents[0] == FilePart(api.upload.value))
  {
  }

  /** Without an image, `generate_content` gets the prompt alone, or nothing
      when the prompt is blank. */
  lemma CallGeminiWithoutImage(key: Option<string>, model: string, systemPrompt: string, prompt: string,
                               image: Option<Bytes>, api: GeminiApi, disk: Disk)
    requires Wf(disk)
    requires Truthy(key) && api.sdkInstalled && api.clientError.None? && !Truthy(image)
    ensures var c := CallGemini(key, model, systemPrompt, prompt, image, api, disk);
      c.trace == [Generated(GeminiModel(model), GeminiContents(None, prompt), Instruction(api, systemPrompt))]
  {
  }

  /** The call succeeds exactly when it reaches `generate_content` and that
      succeeds; once reached, a generation failure is the call's failure. */
  lemma CallGeminiOutcome(key: Option<string>, model: string, systemPrompt: string, prompt: string,
                          image: Option<Bytes>, api: GeminiApi, disk: Disk)
    requires Wf(disk)
    ensures var c := CallGemini(key, model, systemPrompt, prompt, image, api, disk);
      && (c.result.Ok? <==> ReachesGenerate(key, image, api) && api.generate.Ok?)
      && (ReachesGenerate(key, image, api) && api.generate.Err? ==> c.result == Err(api.generate.error))
  {
  }

  /** Whether `call_gemini_api` gets as far as `generate_content`. */
  predicate ReachesGenerate(key: Option<string>, image: Option<Bytes>, api: GeminiApi)
  {
    && Truthy(key) && api.sdkInstalled && api.clientError.None?
    && (Truthy(image) ==> api.fileWrite.None? && api.upload.Ok?)
  }

  /** The system instruction sent with the request: only when its config builds. */
  function Instruction(api: GeminiApi, systemPrompt: string): Option<string>
  {
    if api.configBuilds then Some(systemPrompt) else None
  }

  /** Whether `call_gemini_api` gets as far as writing its own temporary file. */
  predicate CreatesUploadFile(key: Option<string>, image: Option<Bytes>, api: GeminiApi)
  {
    Truthy(key) && api.sdkInstalled && api.clientError.None? && Truthy(image)
  }

  /** The `generate_content` step of `call_gemini_api`, after any upload. */
  function Generate(model: string, systemPrompt: string, prompt: string, uploaded: Option<string>,
                    api: GeminiApi, disk: Disk, steps: seq<Event>): (c: Call)
    ensures c.disk == disk
    ensures |c.trace| == |steps| + 1 && c.trace[..|steps|] == steps
    ensures c.trace[|steps|] == Generated(GeminiModel(model), GeminiContents(uploaded, prompt),
                                          Instruction(api, systemPrompt))
    ensures c.result.Ok? <==> api.generate.Ok?
    ensures c.result.Ok? ==> c.result.value == Reply(GeminiReplyText(api.generate.value), Analysis)
    ensures c.result.Err? ==> c.result.error == api.generate.error
  {
    var trace := steps + [Generated(GeminiModel(model), GeminiContents(uploaded, prompt), Instruction(api, systemPrompt))];
    match api.generate
    case Err(e) => Call(Err(e), disk, trace)
    case Ok(resp) => Call(Ok(Reply(GeminiReplyText(resp), Analysis)), disk, trace)
  }

  /** `call_openai_chat`: one chat-completions request; the disk is untouched. */
  function CallOpenAi(key: Option<string>, systemPrompt: string, prompt: string, api: OpenAiApi, disk: Disk): (c: Call)
    ensures c.disk == disk
    ensures Truthy(key) ==> c.trace == [Posted(OpenAiModel, systemPrompt, prompt)]
    ensures !Truthy(key) ==> c == Call(Err(OpenAiKeyMissing), disk, [])
    ensures c.result.Ok? <==> Truthy(key) && api.response.Ok?
    ensures c.result.Ok? ==> c.result.value == Reply(OpenAiReplyText(api.response.value, api.dumps), Analysis)
  {
    if !Truthy(key) then Call(Err(OpenAiKeyMissing), disk, [])
    else
      var trace := [Posted(OpenAiModel, systemPrompt, prompt)];
      match api.response
      case Err(e) => Call(Err(e), disk, trace)
      case Ok(j) => Call(Ok(Reply(OpenAiReplyText(j, api.dumps), Analysis)), disk, trace)
  }
}
