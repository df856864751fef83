/** What `analyze()` guarantees, stated over the whole handler: the gate,
    the body check, decoding before any file exists, the provider order, the
    reply envelope, and which temporary files are left on disk. */
module HandlerProperties {
  import opened Common
  import opened Text
  import opened DataUrl
  import opened Effects
  import opened ImageFile
  import opened Providers
  import opened Handler

  /** The body is a non-empty object. */
  predicate HasBody(req: Request)
  {
    req.body.Some? && |req.body.value| > 0
  }

  /** The body carries a non-empty `image_base64`. */
  predicate ImageGiven(req: Request)
  {
    HasBody(req) && "image_base64" in req.body.value && req.body.value["image_base64"] != ""
  }

  /** What the decoder is handed for the request's image. */
  function ImagePayload(req: Request): string
    requires ImageGiven(req)
  {
    StripDataUrlPrefix(req.body.value["image_base64"])
  }

  /** The image decodes and is written and read back without a fault, so
      its path is recorded before the provider call. */
  predicate ImageRecorded(req: Request, w: World)
  {
    ImageGiven(req) && w.decode(ImagePayload(req)).Ok? && w.fs == FsFaults(None, None, None)
  }

  /** The gate is armed and the header does not match the secret. */
  predicate SecretMismatch(cfg: Config, req: Request)
  {
    cfg.backendSecret != "devsecret" && req.secretHeader != Some(cfg.backendSecret)
  }

  /** The request gets as far as the provider dispatch. */
  predicate ReachesDispatch(cfg: Config, req: Request, w: World)
  {
    !SecretMismatch(cfg, req) && HasBody(req) && (ImageGiven(req) ==> ImageRecorded(req, w))
  }

  /** 401 is answered exactly when the gate is armed and the header does not
      match; it comes with the `unauthorized` envelope and before anything
      is decoded, written or sent. */
  lemma UnauthorizedExactly(cfg: Config, req: Request, w: World, disk: Disk)
    requires Wf(disk)
    ensures var r := Analyze(cfg, req, w, disk);
      r.status == 401 <==> SecretMismatch(cfg, req)
    ensures var r := Analyze(cfg, req, w, disk);
      r.status == 401 ==> r == Response(401, Failure("unauthorized", None), disk, [])
  {
    var r := Analyze(cfg, req, w, disk);
    if !SecretMismatch(cfg, req) {
      assert Admits(cfg.backendSecret, req.secretHeader);
      assert r.status != 401;
    }
  }

  /** With the default secret every caller passes the gate, header or not. */
  lemma DefaultSecretAdmitsAll(cfg: Config, req: Request, w: World, disk: Disk)
    requires Wf(disk)
    requires cfg.backendSecret == "devsecret"
    ensures Analyze(cfg, req, w, disk).status != 401
  {
    UnauthorizedExactly(cfg, req, w, disk);
  }

  /** A falsy JSON value (`null`, `{}`, `[]`, `""`, `0`, `false`) is answered
      400 and touches nothing. */
  lemma FalsyBodyRejected(cfg: Config, req: Request, w: World, disk: Disk)
    requires Wf(disk)
    requires !SecretMismatch(cfg, req)
    requires req.body.None? || req.body == Some(map[])
    ensures Analyze(cfg, req, w, disk) == Response(400, Failure("invalid json payload", None), disk, [])
  {
  }

  /** A payload the decoder rejects is answered 400 with the decoder's
      message, and no temporary file is created. */
  lemma BadBase64LeavesNoFile(cfg: Config, req: Request, w: World, disk: Disk)
    requires Wf(disk)
    requires !SecretMismatch(cfg, req) && ImageGiven(req)
    requires w.decode(ImagePayload(req)).Err?
    ensures Analyze(cfg, req, w, disk) ==
      Response(400, Failure("bad image base64", Some(w.decode(ImagePayload(req)).error)),
               disk, [Decoded(ImagePayload(req))])
  {
  }

  /** Whenever a temporary file is created, the image was decoded first. */
  lemma DecodeBeforeAnyFile(cfg: Config, req: Request, w: World, disk: Disk)
    requires Wf(disk)
    ensures var r := Analyze(cfg, req, w, disk);
      (exists k :: 0 <= k < |r.trace| && r.trace[k].Created?) ==>
        ImageGiven(req) && r.trace[0] == Decoded(ImagePayload(req))
  {
    var r := Analyze(cfg, req, w, disk);
    if SecretMismatch(cfg, req) || !HasBody(req) {
      assert r.trace == [];
    } else if !ImageGiven(req) {
      var prompt := BuildPrompt(ReadFields(req.body.value).mode, ReadFields(req.body.value).text);
      assert forall k :: 0 <= k < |r.trace| ==> !r.trace[k].Created? by {
        NoImageNoFile(cfg, prompt, w, disk);
        assert r.trace == Dispatch(cfg, prompt, None, w, disk).trace;
      }
    } else if !ImageRecorded(req, w) {
      assert r.trace[0] == Decoded(ImagePayload(req)) by {
        StoppedAtImage(cfg, req, w, disk);
      }
    } else {
      assert r.trace[0] == Decoded(ImagePayload(req)) by {
        assert ReachesDispatch(cfg, req, w);
        TraceOfDispatched(cfg, req, w, disk);
      }
    }
  }

  /** New files appear only for an image that decodes. */
  lemma NewFileNeedsDecodedImage(cfg: Config, req: Request, w: World, disk: Disk)
    requires Wf(disk)
    ensures var r := Analyze(cfg, req, w, disk);
      disk.live < r.disk.live ==> ImageGiven(req) && w.decode(ImagePayload(req)).Ok?
  {
    var r := Analyze(cfg, req, w, disk);
    if SecretMismatch(cfg, req) || !HasBody(req) {
      assert r.disk == disk;
    } else if !ImageGiven(req) {
      var fields := ReadFields(req.body.value);
      NoImageNoFile(cfg, BuildPrompt(fields.mode, fields.text), w, disk);
      assert r.disk == disk;
    } else if w.decode(ImagePayload(req)).Err? {
      BadBase64LeavesNoFile(cfg, req, w, disk);
    }
  }

  /** Without an image the dispatch creates no file. */
  lemma NoImageNoFile(cfg: Config, prompt: string, w: World, disk: Disk)
    requires Wf(disk)
    ensures var a := Dispatch(cfg, prompt, None, w, disk);
      a.disk == disk && forall k :: 0 <= k < |a.trace| ==> !a.trace[k].Created?
  {
  }

  /** The prompt built from the request's body. */
  function PromptOf(req: Request): string
    requires HasBody(req)
  {
    BuildPrompt(ReadFields(req.body.value).mode, ReadFields(req.body.value).text)
  }

  /** The disk once the image file has been created. */
  function WithImageFile(disk: Disk): (d: Disk)
    requires Wf(disk)
    ensures Wf(d) && d.live == disk.live + {disk.next} && d.next == disk.next + 1
  {
    CreateTemp(disk).1
  }

  /** A request that reaches the dispatch is answered by the `try` block and
      its `finally`, with the recorded image file when there is one. */
  lemma AnalyzeReachesDispatch(cfg: Config, req: Request, w: World, disk: Disk)
    requires Wf(disk)
    requires ReachesDispatch(cfg, req, w)
    ensures ImageGiven(req) ==>
      && w.decode(ImagePayload(req)).Ok?
      && Analyze(cfg, req, w, disk) ==
        Finally([Decoded(ImagePayload(req)), Created(disk.next), ReadBack(disk.next)],
                Dispatch(cfg, PromptOf(req), Some(w.decode(ImagePayload(req)).value), w,
                         WithImageFile(disk)),
                Some(disk.next))
    ensures !ImageGiven(req) ==>
      Analyze(cfg, req, w, disk) == Finally([], Dispatch(cfg, PromptOf(req), None, w, disk), None)
  {
    assert Admits(cfg.backendSecret, req.secretHeader);
    var fields := ReadFields(req.body.value);
    assert Truthy(fields.image) <==> ImageGiven(req);
    if ImageGiven(req) {
      var loaded := LoadImage(fields.image.value, w.decode, w.fs, disk);
      assert loaded.result == Ok(Saved(disk.next, w.decode(ImagePayload(req)).value));
      assert loaded.disk == WithImageFile(disk);
    }
  }

  /** Every request answered 200 or 500 got as far as the dispatch. */
  lemma AnsweredByDispatch(cfg: Config, req: Request, w: World, disk: Disk)
    requires Wf(disk)
    ensures var r := Analyze(cfg, req, w, disk);
      r.status in {200, 500} ==> ReachesDispatch(cfg, req, w)
  {
    var r := Analyze(cfg, req, w, disk);
    if !ReachesDispatch(cfg, req, w) {
      UnauthorizedExactly(cfg, req, w, disk);
      if !SecretMismatch(cfg, req) && HasBody(req) {
        assert ImageGiven(req) && !ImageRecorded(req, w);
        StoppedAtImage(cfg, req, w, disk);
      }
    }
  }

  /** An image that fails to decode, to be written or to be read back ends
      the request with 400 `bad image base64` and the failure's message;
      what loading did to the disk stays. */
  lemma StoppedAtImage(cfg: Config, req: Request, w: World, disk: Disk)
    requires Wf(disk)
    requires !SecretMismatch(cfg, req) && ImageGiven(req) && !ImageRecorded(req, w)
    ensures var loaded := LoadImage(req.body.value["image_base64"], w.decode, w.fs, disk);
      && loaded.result.Err?
      && Analyze(cfg, req, w, disk) ==
           Response(400, Failure("bad image base64", Some(loaded.result.error)), loaded.disk, loaded.trace)
  {
    var fields := ReadFields(req.body.value);
    assert Admits(cfg.backendSecret, req.secretHeader);
    assert Truthy(fields.image) && fields.image.value == req.body.value["image_base64"];
  }

  /** With neither key configured, a request that reaches the dispatch is
      answered 500 with the configuration message; apart from the image
      file's creation and removal, nothing happens. */
  lemma NoProviderConfigured(cfg: Config, req: Request, w: World, disk: Disk)
    requires Wf(disk)
    requires ReachesDispatch(cfg, req, w)
    requires !Truthy(cfg.geminiKey) && !Truthy(cfg.openAiKey)
    ensures var r := Analyze(cfg, req, w, disk);
      && r.status == 500 && r.envelope == Failure(NoProviderMessage, None)
      && r.disk.live == disk.live
      && r.trace == if ImageGiven(req)
                    then [Decoded(ImagePayload(req)), Created(disk.next), ReadBack(disk.next), Removed(disk.next)]
                    else []
  {
    AnalyzeReachesDispatch(cfg, req, w, disk);
    if ImageGiven(req) {
      var d := WithImageFile(disk);
      var a := Dispatch(cfg, PromptOf(req), Some(w.decode(ImagePayload(req)).value), w, d);
      assert a == Attempt(500, Failure(NoProviderMessage, None), d, []);
      assert d.live - {disk.next} == disk.live;
    } else {
      var a := Dispatch(cfg, PromptOf(req), None, w, disk);
      assert a == Attempt(500, Failure(NoProviderMessage, None), disk, []);
    }
  }

  /** The steps before the `try` when the image path is recorded. */
  function ImageSteps(req: Request, disk: Disk): (t: seq<Event>)
    requires ImageGiven(req)
    ensures NoOpenAiCall(t) && NoGeminiCall(t)
  {
    [Decoded(ImagePayload(req)), Created(disk.next), ReadBack(disk.next)]
  }

  /** The `try` block of a request that reaches it. */
  function DispatchOf(cfg: Config, req: Request, w: World, disk: Disk): Attempt
    requires Wf(disk)
    requires ReachesDispatch(cfg, req, w)
  {
    if ImageGiven(req) then
      Dispatch(cfg, PromptOf(req), Some(w.decode(ImagePayload(req)).value), w,
               WithImageFile(disk))
    else
      Dispatch(cfg, PromptOf(req), None, w, disk)
  }

  /** The steps of a request that reaches the dispatch: the image steps, the
      `try` block's steps, and the removal of the image file. */
  lemma TraceOfDispatched(cfg: Config, req: Request, w: World, disk: Disk)
    requires Wf(disk)
    requires ReachesDispatch(cfg, req, w)
    ensures var r := Analyze(cfg, req, w, disk);
      var a := DispatchOf(cfg, req, w, disk);
      && r.status == a.status && r.envelope == a.envelope
      && r.trace == (if ImageGiven(req) then ImageSteps(req, disk) + a.trace + [Removed(disk.next)] else a.trace)
      && r.disk.live == if ImageGiven(req) then a.disk.live - {disk.next} else a.disk.live
  {
    AnalyzeReachesDispatch(cfg, req, w, disk);
  }

  /** With a Gemini key, OpenAI is never contacted, whatever its key. */
  lemma GeminiTakesPrecedence(cfg: Config, req: Request, w: World, disk: Disk)
    requires Wf(disk)
    requires Truthy(cfg.geminiKey)
    ensures NoOpenAiCall(Analyze(cfg, req, w, disk).trace)
  {
    if ReachesDispatch(cfg, req, w) {
      TraceOfDispatched(cfg, req, w, disk);
      if ImageGiven(req) {
        var a := DispatchOf(cfg, req, w, disk);
        NoCallConcat(ImageSteps(req, disk), a.trace);
        NoCallConcat(ImageSteps(req, disk) + a.trace, [Removed(disk.next)]);
      }
    } else {
      NotDispatchedNoProvider(cfg, req, w, disk);
    }
  }

  /** A request that does not reach the dispatch calls no provider. */
  lemma NotDispatchedNoProvider(cfg: Config, req: Request, w: World, disk: Disk)
    requires Wf(disk)
    requires !ReachesDispatch(cfg, req, w)
    ensures var r := Analyze(cfg, req, w, disk);
      NoOpenAiCall(r.trace) && NoGeminiCall(r.trace)
  {
    if !SecretMismatch(cfg, req) && HasBody(req) {
      assert ImageGiven(req) && !ImageRecorded(req, w);
      StoppedAtImage(cfg, req, w, disk);
    } else {
      assert Analyze(cfg, req, w, disk).trace == [];
    }
  }

  /** Without a Gemini key but with an OpenAI key, the prompt is posted to
      OpenAI and Gemini is not called. */
  lemma OpenAiIsFallback(cfg: Config, req: Request, w: World, disk: Disk)
    requires Wf(disk)
    requires ReachesDispatch(cfg, req, w)
    requires !Truthy(cfg.geminiKey) && Truthy(cfg.openAiKey)
    ensures Posted(OpenAiModel, cfg.systemPrompt, PromptOf(req)) in Analyze(cfg, req, w, disk).trace
    ensures NoGeminiCall(Analyze(cfg, req, w, disk).trace)
  {
    TraceOfDispatched(cfg, req, w, disk);
    var a := DispatchOf(cfg, req, w, disk);
    assert a.trace == [Posted(OpenAiModel, cfg.systemPrompt, PromptOf(req))];
    if ImageGiven(req) {
      NoCallConcat(ImageSteps(req, disk), a.trace);
      NoCallConcat(ImageSteps(req, disk) + a.trace, [Removed(disk.next)]);
      assert Analyze(cfg, req, w, disk).trace[3] == a.trace[0];
    } else {
      assert Analyze(cfg, req, w, disk).trace[0] == a.trace[0];
    }
  }

  /** The conditions under which a request's image reaches Gemini: the
      request passes the gate, its image is recorded and non-empty, Gemini
      is ready, its own file is written and the upload returns a handle. */
  predicate GeminiGetsImage(cfg: Config, req: Request, w: World)
  {
    && !SecretMismatch(cfg, req) && ImageRecorded(req, w)
    && |w.decode(ImagePayload(req)).value| > 0
    && Truthy(cfg.geminiKey) && w.gemini.sdkInstalled && w.gemini.clientError.None?
    && w.gemini.fileWrite.None? && w.gemini.upload.Ok?
  }

  /** After an image reaches Gemini, Gemini's file stays on disk while the
      request's own file is gone; the answer is 200 exactly when the
      generation succeeds. */
  lemma ImageReachesGeminiOutcome(cfg: Config, req: Request, w: World, disk: Disk)
    requires Wf(disk)
    requires GeminiGetsImage(cfg, req, w)
    ensures var r := Analyze(cfg, req, w, disk);
      && r.disk.live == disk.live + {disk.next + 1}
      && (r.status == 200 <==> w.gemini.generate.Ok?)
  {
    DispatchOfImage(cfg, req, w, disk);
    DispatchImageToGemini(cfg, PromptOf(req), w.decode(ImagePayload(req)).value, w, WithImageFile(disk));
    TraceOfDispatched(cfg, req, w, disk);
    RemoveFirstOfTwo(disk);
  }

  /** A request whose image reaches Gemini runs the provider block on the
      decoded bytes, with the image file on disk. */
  lemma DispatchOfImage(cfg: Config, req: Request, w: World, disk: Disk)
    requires Wf(disk)
    requires !SecretMismatch(cfg, req) && ImageRecorded(req, w)
    ensures ImageGiven(req) && ReachesDispatch(cfg, req, w)
    ensures DispatchOf(cfg, req, w, disk) ==
      Dispatch(cfg, PromptOf(req), Some(w.decode(ImagePayload(req)).value), w, WithImageFile(disk))
    ensures WithImageFile(disk).next == disk.next + 1
  {
  }

  /** Removing the first of two new files leaves the second. */
  lemma RemoveFirstOfTwo(disk: Disk)
    requires Wf(disk)
    ensures (disk.live + {disk.next} + {disk.next + 1}) - {disk.next} == disk.live + {disk.next + 1}
  {
    assert disk.next !in disk.live;
  }

  /** Given image bytes and a ready Gemini, the provider block writes the
      bytes to Gemini's own file, uploads it, and sends the handle to
      `generate_content` as the first content item, ahead of the prompt. */
  lemma DispatchImageToGemini(cfg: Config, prompt: string, bytes: Bytes, w: World, d: Disk)
    requires Wf(d)
    requires |bytes| > 0
    requires Truthy(cfg.geminiKey) && w.gemini.sdkInstalled && w.gemini.clientError.None?
    requires w.gemini.fileWrite.None? && w.gemini.upload.Ok?
    ensures var a := Dispatch(cfg, prompt, Some(bytes), w, d);
      && a.trace == [Created(d.next), Uploaded(d.next),
                     Generated(GeminiModel(cfg.defaultModel), GeminiContents(Some(w.gemini.upload.value), prompt),
                               Instruction(w.gemini, cfg.systemPrompt))]
      && a.trace[2].contents[0] == FilePart(w.gemini.upload.value)
      && a.disk.live == d.live + {d.next}
      && (a.status == 200 <==> w.gemini.generate.Ok?)
  {
    assert CreatesUploadFile(cfg.geminiKey, Some(bytes), w.gemini);
    CallGeminiUploadsImage(cfg.geminiKey, cfg.defaultModel, cfg.systemPrompt, prompt, Some(bytes), w.gemini, d);
    CallGeminiOutcome(cfg.geminiKey, cfg.defaultModel, cfg.systemPrompt, prompt, Some(bytes), w.gemini, d);
  }

  /** When writing Gemini's own file fails, the provider block answers 500
      with the write's message before any upload, and the file stays. */
  lemma DispatchImageWriteFault(cfg: Config, prompt: string, bytes: Bytes, w: World, d: Disk)
    requires Wf(d)
    requires |bytes| > 0
    requires Truthy(cfg.geminiKey) && w.gemini.sdkInstalled && w.gemini.clientError.None?
    requires w.gemini.fileWrite.Some?
    ensures var a := Dispatch(cfg, prompt, Some(bytes), w, d);
      && a.trace == [Created(d.next)]
      && a.status == 500 && a.envelope == Failure(ProviderError, Some(w.gemini.fileWrite.value))
      && a.disk.live == d.live + {d.next}
  {
    assert CreatesUploadFile(cfg.geminiKey, Some(bytes), w.gemini);
    CallGeminiUploadsImage(cfg.geminiKey, cfg.defaultModel, cfg.systemPrompt, prompt, Some(bytes), w.gemini, d);
  }

  /** A request whose image reaches Gemini but whose Gemini file cannot be
      written is answered 500 with the write's message; Gemini's file stays
      on disk and the request's own file is gone. */
  lemma ImageWriteFaultOutcome(cfg: Config, req: Request, w: World, disk: Disk)
    requires Wf(disk)
    requires !SecretMismatch(cfg, req) && ImageRecorded(req, w)
    requires |w.decode(ImagePayload(req)).value| > 0
    requires Truthy(cfg.geminiKey) && w.gemini.sdkInstalled && w.gemini.clientError.None?
    requires w.gemini.fileWrite.Some?
    ensures var r := Analyze(cfg, req, w, disk);
      && r.status == 500 && r.envelope == Failure(ProviderError, Some(w.gemini.fileWrite.value))
      && r.disk.live == disk.live + {disk.next + 1}
  {
    DispatchOfImage(cfg, req, w, disk);
    DispatchImageWriteFault(cfg, PromptOf(req), w.decode(ImagePayload(req)).value, w, WithImageFile(disk));
    TraceOfDispatched(cfg, req, w, disk);
    RemoveFirstOfTwo(disk);
  }

  /** A 200 needs a configured key. */
  lemma SuccessNeedsKey(cfg: Config, req: Request, w: World, disk: Disk)
    requires Wf(disk)
    ensures Analyze(cfg, req, w, disk).status == 200 ==> Truthy(cfg.geminiKey) || Truthy(cfg.openAiKey)
  {
    AnsweredByDispatch(cfg, req, w, disk);
    if ReachesDispatch(cfg, req, w) && !Truthy(cfg.geminiKey) && !Truthy(cfg.openAiKey) {
      NoProviderConfigured(cfg, req, w, disk);
    }
  }

  /** A 200 with a Gemini key names Gemini, which generated the reply, and
      carries Gemini's reply text with the default reply type. */
  lemma SuccessFromGemini(cfg: Config, req: Request, w: World, disk: Disk)
    requires Wf(disk)
    requires Truthy(cfg.geminiKey)
    ensures var r := Analyze(cfg, req, w, disk);
      r.status == 200 ==>
        && w.gemini.generate.Ok?
        && r.envelope == Success(GeminiReplyText(w.gemini.generate.value), "analysis", "gemini")
        && !NoGeminiCall(r.trace)
  {
    var r := Analyze(cfg, req, w, disk);
    AnsweredByDispatch(cfg, req, w, disk);
    if r.status == 200 {
      TraceOfDispatched(cfg, req, w, disk);
      var a := DispatchOf(cfg, req, w, disk);
      assert !NoGeminiCall(a.trace) by {
        assert a.trace[|a.trace| - 1].Generated?;
      }
      if ImageGiven(req) {
        NoCallConcat(ImageSteps(req, disk), a.trace);
        NoCallConcat(ImageSteps(req, disk) + a.trace, [Removed(disk.next)]);
      }
    }
  }

  /** A 200 without a Gemini key names OpenAI, to which the prompt was
      posted, and carries the reply text extracted from its body. */
  lemma SuccessFromOpenAi(cfg: Config, req: Request, w: World, disk: Disk)
    requires Wf(disk)
    requires !Truthy(cfg.geminiKey)
    ensures var r := Analyze(cfg, req, w, disk);
      r.status == 200 ==>
        && w.openAi.response.Ok?
        && r.envelope == Success(OpenAiReplyText(w.openAi.response.value, w.openAi.dumps), "analysis", "openai")
        && Posted(OpenAiModel, cfg.systemPrompt, PromptOf(req)) in r.trace
  {
    var r := Analyze(cfg, req, w, disk);
    AnsweredByDispatch(cfg, req, w, disk);
    SuccessNeedsKey(cfg, req, w, disk);
    if r.status == 200 {
      TraceOfDispatched(cfg, req, w, disk);
      OpenAiIsFallback(cfg, req, w, disk);
    }
  }

  /** Once the image path is recorded, the `finally` removes it on every exit
      of the provider block, and it is the last step taken. */
  lemma RecordedFileRemoved(cfg: Config, req: Request, w: World, disk: Disk)
    requires Wf(disk)
    requires !SecretMismatch(cfg, req) && ImageRecorded(req, w)
    ensures var r := Analyze(cfg, req, w, disk);
      disk.next !in r.disk.live && |r.trace| > 0 && r.trace[|r.trace| - 1] == Removed(disk.next)
  {
  }

  /** The temporary files left behind by a request: the image file when
      writing or reading it back fails (the early 400 return skips any
      cleanup), and the second file Gemini writes for a non-empty image,
      which nothing removes. No file that existed before is touched. */
  lemma LeftBehind(cfg: Config, req: Request, w: World, disk: Disk)
    requires Wf(disk)
    ensures var r := Analyze(cfg, req, w, disk);
      r.disk.live == disk.live + LateFaultLeak(cfg, req, w, disk) + UploadLeak(cfg, req, w, disk)
  {
    var r := Analyze(cfg, req, w, disk);
    if SecretMismatch(cfg, req) || !HasBody(req) {
      assert r.disk == disk;
    } else if !ImageGiven(req) {
      var fields := ReadFields(req.body.value);
      NoImageNoFile(cfg, BuildPrompt(fields.mode, fields.text), w, disk);
      assert r.disk == Dispatch(cfg, BuildPrompt(fields.mode, fields.text), None, w, disk).disk;
    } else if !ImageRecorded(req, w) {
      LeftBehindAtImage(cfg, req, w, disk);
    } else {
      LeftBehindAfterDispatch(cfg, req, w, disk);
    }
  }

  /** A request stopped while loading its image leaves the image file behind
      exactly on a late fault. */
  lemma LeftBehindAtImage(cfg: Config, req: Request, w: World, disk: Disk)
    requires Wf(disk)
    requires !SecretMismatch(cfg, req) && ImageGiven(req) && !ImageRecorded(req, w)
    ensures Analyze(cfg, req, w, disk).disk.live == disk.live + LateFaultLeak(cfg, req, w, disk)
    ensures UploadLeak(cfg, req, w, disk) == {}
  {
    var loaded := LoadImage(req.body.value["image_base64"], w.decode, w.fs, disk);
    StoppedAtImage(cfg, req, w, disk);
    if w.decode(ImagePayload(req)).Ok? && w.fs.create.None? && (w.fs.write.Some? || w.fs.read.Some?) {
      LoadImageLeaksOnLateFault(req.body.value["image_base64"], w.decode, w.fs, disk);
    } else {
      assert loaded.disk.live == disk.live;
    }
  }

  /** A request whose image path is recorded leaves only Gemini's upload file. */
  lemma LeftBehindAfterDispatch(cfg: Config, req: Request, w: World, disk: Disk)
    requires Wf(disk)
    requires !SecretMismatch(cfg, req) && ImageRecorded(req, w)
    ensures Analyze(cfg, req, w, disk).disk.live == disk.live + UploadLeak(cfg, req, w, disk)
    ensures LateFaultLeak(cfg, req, w, disk) == {}
  {
    var fields := ReadFields(req.body.value);
    var loaded := LoadImage(fields.image.value, w.decode, w.fs, disk);
    assert loaded.result.Ok?;
    var saved := loaded.result.value;
    var prompt := BuildPrompt(fields.mode, fields.text);
    DispatchLeak(cfg, prompt, saved.bytes, w, loaded.disk);
  }

  /** The image file is on disk but its path was never recorded. */
  function LateFaultLeak(cfg: Config, req: Request, w: World, disk: Disk): set<Path>
  {
    if !SecretMismatch(cfg, req) && ImageGiven(req) && w.decode(ImagePayload(req)).Ok?
       && w.fs.create.None? && (w.fs.write.Some? || w.fs.read.Some?)
    then {disk.next}
    else {}
  }

  /** Gemini wrote the decoded image to its own temporary file. */
  function UploadLeak(cfg: Config, req: Request, w: World, disk: Disk): set<Path>
  {
    if !SecretMismatch(cfg, req) && ImageRecorded(req, w) && |w.decode(ImagePayload(req)).value| > 0
       && Truthy(cfg.geminiKey) && w.gemini.sdkInstalled && w.gemini.clientError.None?
    then {disk.next + 1}
    else {}
  }

  /** The dispatch leaves exactly Gemini's upload file behind. */
  lemma DispatchLeak(cfg: Config, prompt: string, bytes: Bytes, w: World, disk: Disk)
    requires Wf(disk)
    ensures var a := Dispatch(cfg, prompt, Some(bytes), w, disk);
      a.disk.live == disk.live +
        (if Truthy(cfg.geminiKey) && w.gemini.sdkInstalled && w.gemini.clientError.None? && |bytes| > 0
         then {disk.next} else {})
  {
  }

  const SummaryText := "Summarize the Niger Delta conflict"

  /** The mode `summary` puts `[MODE: SUMMARY]` and a blank line before the text. */
  lemma SummaryPrompt()
    ensures BuildPrompt("summary", SummaryText) == "[MODE: SUMMARY]\n\n" + SummaryText
  {
    var upper := Upper("summary");
    assert upper == "SUMMARY" by {
      assert |upper| == 7;
      forall k | 0 <= k < 7
        ensures upper[k] == "SUMMARY"[k]
      {
        assert IsLowerAscii("summary"[k]);
      }
    }
  }

  /** The scenario of a summary request served by Gemini: the provider sees
      the message behind the `[MODE: SUMMARY]` marker, and its text comes back. */
  lemma SummaryScenario(cfg: Config, w: World, disk: Disk, answer: string)
    requires Wf(disk)
    requires Truthy(cfg.geminiKey) && cfg.backendSecret == "devsecret"
    requires w.gemini.sdkInstalled && w.gemini.clientError.None? && w.gemini.configBuilds
    requires w.gemini.generate == Ok(GeminiResponse(Some(JStr(answer)), None))
    ensures var req := Request(None, Some(map["message_text" := SummaryText, "mode" := "summary"]));
      var r := Analyze(cfg, req, w, disk);
      && r.status == 200
      && r.envelope == Success(JStr(answer), "analysis", "gemini")
      && r.trace == [Generated(GeminiModel(cfg.defaultModel),
                               [TextPart("[MODE: SUMMARY]\n\n" + SummaryText)],
                               Some(cfg.systemPrompt))]
      && r.disk == disk
  {
    var req := Request(None, Some(map["message_text" := SummaryText, "mode" := "summary"]));
    var fields := ReadFields(req.body.value);
    assert fields == Fields("summary", SummaryText, None);
    assert !ImageGiven(req);
    assert ReachesDispatch(cfg, req, w);
    AnalyzeReachesDispatch(cfg, req, w, disk);
    SummaryPrompt();
    var prompt := PromptOf(req);
    assert prompt == "[MODE: SUMMARY]\n\n" + SummaryText;
    assert prompt[0] == '[' && !IsBlank(prompt);
    assert GeminiContents(None, prompt) == [TextPart(prompt)];
  }
}
