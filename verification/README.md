# Model of the `/analyze` request handler

This project models the `POST /analyze` endpoint of a Flask backend that relays
a tutoring question (text and an optional base64 image) to Gemini or OpenAI.
The handler becomes a pure function. It takes:

- the process configuration (the Gemini key, the OpenAI key, the backend secret, the model name and the system prompt);
- the request (the optional `x-backend-secret` header and an optional JSON object of string fields);
- the outcomes of everything outside the process;
- the temporary files currently on disk.

It returns the HTTP status, the reply envelope, the temporary files left on
disk and a trace of the observable steps. Those steps are decoding, file
creation, read-back and removal, the Gemini upload and generation, and the
OpenAI post.

Modules, one per concern of `app.py`:

- `Common`: `Option`, `Result` (an exception is its message), bytes, parsed JSON, and Python truthiness of optional strings.
- `Text`: Python's `in`, `find`, `split`, `join`, ASCII `upper()` and `strip()`-blankness.
- `DataUrl`: the `base64,` prefix stripping of `save_base64_image_to_tempfile`.
- `Effects`: live temporary files (`Disk`, with a counter for fresh names), the Gemini content items, and the trace events.
- `ImageFile`: decode, write the temporary file, then read it back.
- `Providers`: `call_gemini_api` and `call_openai_chat`, each with abstract outcomes.
- `Handler`: the gate, the body check, the prompt, the dispatch, the `finally` cleanup, and `Analyze`.
- `HandlerProperties`: lemmas about `Analyze` as a whole.

Behaviour of the code that a reader may not expect, and that the model keeps:

- An empty `BACKEND_SECRET` still arms the gate, because only `"devsecret"` disarms it (app.py:111). A request whose header is `""` then passes, and a request with no header is refused.
- `split("base64,")[1]` (app.py:29) passes only the segment between the first `base64,` marker and the next one, not everything after the first marker. `DataUrl.StripDropsSecondMarkerOnwards` and `DataUrl.StripTwoMarkerExample` state this.
- The `finally` at app.py:144 covers only the provider block. A file whose write or read-back fails (app.py:127-132) stays on disk. So does the second file Gemini writes for an upload (app.py:49-57), which nothing removes. `HandlerProperties.LeftBehind` states both.

## Model

| member | source | states |
|---|---|---|
| HandlerProperties.UnauthorizedExactly | app.py:110-112 | 401 exactly when the secret is not `"devsecret"` and the header is not the secret. It then returns the `unauthorized` envelope, with the disk unchanged and an empty trace: nothing is decoded, written or sent. |
| HandlerProperties.DefaultSecretAdmitsAll | app.py:111 | With the default secret, no request gets 401, whatever its header, including a missing one. |
| Handler.AdmitsExactly | app.py:110-111 | The gate admits a request exactly when the secret is `"devsecret"` or the header equals the secret. Without a header, only the default secret admits. |
| HandlerProperties.FalsyBodyRejected | app.py:113-115 | A falsy JSON value (`null`, `{}`, `[]`, `""`, `0`, `false`) gets 400 `invalid json payload`, with no effects. |
| Handler.ReadFieldsDefaults | app.py:116-119 | `mode` defaults to `"auto"` and `message_text` to `""`. `image_base64` is absent when missing, and it is truthy exactly when present and non-empty. Present fields are read as given. |
| Handler.BuildPrompt | app.py:117-123 | Mode `"auto"` leaves the text unchanged. Any other mode gives `"[MODE: " + upper(mode) + "]\n\n" + text`. The text is always a suffix of the prompt, and a moded prompt is never blank. |
| HandlerProperties.SummaryPrompt | app.py:120-121 | The mode `summary` yields the marker `[MODE: SUMMARY]`. |
| Text.Upper | app.py:121 | Same length. No lower-case ASCII letter remains. Lower-case ASCII letters move down by 32 and all other characters are unchanged. |
| Text.FindFrom | app.py:28 | Returns the first occurrence at or after the start index. `None` means there is no occurrence from there on. |
| Text.FoundIffContains | app.py:28 | `find` succeeds exactly when the `in` test holds. |
| Text.Split | app.py:29 | `split` yields at least one piece. It yields exactly one piece when the separator does not occur. |
| Text.JoinSplit | app.py:29 | Joining the pieces of a split with the separator gives back the original string. |
| Text.SplitPiecesOmitSeparator | app.py:29 | No piece of a split contains the separator. |
| DataUrl.StripDataUrlPrefix | app.py:27-29 | Identity when `base64,` does not occur. The result never contains `base64,` and is no longer than the input. |
| DataUrl.StripKeepsSegmentAfterFirstMarker | app.py:27-29 | The result is exactly the segment after the first marker, ending at the next marker or at the end of the input. |
| DataUrl.StripIdempotent | app.py:27-29 | Stripping twice gives the same result as stripping once. |
| DataUrl.StripDropsSecondMarkerOnwards | app.py:29 | When a second marker follows, the decoder gets strictly less than everything after the first marker. |
| DataUrl.StripTwoMarkerExample | app.py:29 | `data:;base64,QQ==base64,Qg==` decodes only `QQ==`. |
| ImageFile.LoadImage | app.py:26-35 | Decoding comes first: a payload the decoder rejects returns its message with the disk unchanged. On success, the fresh path and the decoded bytes are recorded. Otherwise, at most that one new file is left on disk. |
| ImageFile.LoadImageLeaksOnLateFault | app.py:127-132 | A write or read-back failure reports an error but leaves the new file on disk. |
| HandlerProperties.BadBase64LeavesNoFile | app.py:126-132 | Invalid base64 gives 400 `bad image base64` with the decoder's message. The disk is unchanged and the only step is the decode. |
| HandlerProperties.DecodeBeforeAnyFile | app.py:30-31 | Any trace that creates a file comes from a request with an image, and its first step is decoding that image's stripped payload. |
| HandlerProperties.NewFileNeedsDecodedImage | app.py:126-132 | A request that adds files to the disk carries an image that the decoder accepts. |
| Text.Strip | app.py:58 | `strip()` never lengthens a string. A non-empty result starts and ends with a non-whitespace character, and a string with non-whitespace ends is left as it is. |
| Text.StripInfix | app.py:58 | `strip()` returns a contiguous piece of the input. Everything before it and everything after it is whitespace, so only leading and trailing whitespace is removed. |
| Text.BlankIffStripEmpty | app.py:58 | A string is all whitespace exactly when `strip()` leaves nothing of it, so `payload_text and payload_text.strip()` is false exactly for blank prompts. |
| Text.SpaceExamples | app.py:58 | Space, tab, newline and carriage return are whitespace. ASCII letters and digits are not. |
| Effects.CreateTemp | app.py:31 | `NamedTemporaryFile(delete=False)` gives a path not yet on disk, and the disk gains exactly that path. |
| Effects.RemoveTemp | app.py:146-147 | `os.remove` takes exactly that path off the disk. |
| Providers.GeminiContents | app.py:47-59 | The uploaded file comes first when there is one. The prompt is added exactly when it is not blank, and nothing else is added. |
| Providers.GeminiModel | app.py:64 | The model name is never empty. The configured name is used whenever it is set, and an empty one gives `gemini-2.5-pro`. |
| Providers.Generate | app.py:60-77 | Records one `generate_content` call with the model, the contents, and the system instruction when the config builds. Succeeds exactly when the provider does, with reply type `analysis`. |
| Providers.CallGemini | app.py:38-77 | Never posts to OpenAI. Success carries the text extracted from the Gemini response. The disk gains exactly the upload file, and only when the SDK, the client and a non-empty image are all present. The file stays even when writing it fails. |
| Providers.CallGeminiFailsEarly | app.py:39-46 | Without a truthy key, the call fails with `GEMINI_API_KEY not set on server.`. Without the SDK, it fails with the install message. A client that cannot be built fails with its message. None of these takes a step or touches the disk. |
| Providers.CallGeminiUploadsImage | app.py:48-57 | With a non-empty image, the call first creates its own file. A failed write, flush or close ends the call with its message, before any upload. Otherwise the file is uploaded. A failed upload ends the call with the upload's message. A handle goes to `generate_content` as the first content item. |
| Providers.CallGeminiWithoutImage | app.py:58-68 | Without an image, the only step is `generate_content`, with no file content. |
| Providers.CallGeminiOutcome | app.py:38-77 | The call succeeds exactly when it reaches `generate_content` and that call succeeds. Once it is reached, a generation failure is the call's failure. |
| Providers.GeminiReplyText | app.py:69-76 | Uses `.text`, then `str(response)`, then the fixed placeholder. |
| Providers.CallOpenAi | app.py:80-105 | Without a key, fails with the key message and takes no step. Otherwise one post of the system prompt and the user text. Succeeds exactly when the round trip does, and never touches the disk. |
| Providers.OpenAiReplyOfCompletion | app.py:100-104 | Any body whose first choice has `message.content` yields that content, whatever else it carries. |
| Providers.OpenAiReplyFallback | app.py:100-104 | Exactly the bodies without that shape fall back to the serialised body. |
| Handler.Settle | app.py:142-155 | A provider exception gives 500 `AI provider error` with its message. A reply gives 200 with the reply text, the reply type and the provider's name. |
| Handler.SelectProviderOrder | app.py:134-141 | Gemini is chosen exactly when its key is truthy. OpenAI is chosen exactly when only the OpenAI key is. No provider is chosen exactly when neither key is. |
| Handler.Dispatch | app.py:133-143 | Gemini if its key is truthy, else OpenAI, else 500 with the configuration message and no effects. Never removes a file. |
| Handler.Finally | app.py:144-149 | Removes the recorded path and nothing else. |
| Handler.Analyze | app.py:108-155 | The status is 200, 400, 401 or 500, and 200 comes exactly with the `ok` envelope, whose reply type is `analysis`. Files that existed before the request are never removed. |
| HandlerProperties.AnalyzeReachesDispatch | app.py:124-149 | A request that reaches the provider block is answered by that block, then by the `finally` with the recorded file. |
| HandlerProperties.TraceOfDispatched | app.py:124-149 | For a request that reaches the provider block, the steps are the image steps (decode, create, read back), then the block's steps, then the removal of the image file. Status and envelope are the block's. |
| HandlerProperties.AnsweredByDispatch | app.py:110-132 | Every 200 or 500 answer reached the provider block. |
| HandlerProperties.StoppedAtImage | app.py:126-132 | An image that fails to decode, write or read back ends the request with 400 `bad image base64` and that failure's message. The disk and the steps are those the failed load left. |
| HandlerProperties.NotDispatchedNoProvider | app.py:110-132 | A request refused before the provider block calls no provider. |
| HandlerProperties.NoImageNoFile | app.py:133-141 | Without an image, the provider block creates no file. |
| HandlerProperties.NoProviderConfigured | app.py:140-141 | With neither key, 500 with the configuration message and no provider call. |
| HandlerProperties.GeminiTakesPrecedence | app.py:134-136 | With a Gemini key, OpenAI is never contacted. |
| HandlerProperties.OpenAiIsFallback | app.py:137-139 | With only an OpenAI key, the prompt is posted to OpenAI and Gemini is not called. |
| HandlerProperties.DispatchOfImage | app.py:126-135 | A request that passes the gate and whose image is recorded reaches the provider block with the decoded bytes and its image file on disk. |
| HandlerProperties.DispatchImageToGemini | app.py:48-66 | Given image bytes, a ready Gemini and a successful write of Gemini's file, the provider block takes exactly three steps: it creates Gemini's file, uploads it, then calls `generate_content` with the upload handle as the first content item, ahead of the prompt. It adds only Gemini's file to the disk, and answers 200 exactly when the generation succeeds. |
| HandlerProperties.ImageReachesGeminiOutcome | app.py:134-149 | After the image reaches Gemini and Gemini's file is written, Gemini's file stays on disk while the request's own file is gone. The answer is 200 exactly when the generation succeeds. |
| HandlerProperties.DispatchImageWriteFault | app.py:48-53 | When writing Gemini's file fails, the provider block's only step is creating that file. It answers 500 `AI provider error` with the write's message, and the file stays on disk. |
| HandlerProperties.ImageWriteFaultOutcome | app.py:134-149 | A request whose image reaches Gemini but whose Gemini file cannot be written gets 500 `AI provider error` with the write's message. Gemini's file stays on disk and the request's own file is gone. |
| HandlerProperties.SuccessNeedsKey | app.py:134-141 | A 200 needs a configured Gemini or OpenAI key. |
| HandlerProperties.SuccessFromGemini | app.py:134-136 | A 200 with a Gemini key comes from a successful generation. It names `gemini`, carries Gemini's reply text with type `analysis`, and its trace contains a Gemini call. |
| HandlerProperties.SuccessFromOpenAi | app.py:137-139 | A 200 without a Gemini key comes from a successful OpenAI round trip. It names `openai`, carries the reply text extracted from the body, and its trace contains the post of the prompt. |
| HandlerProperties.RecordedFileRemoved | app.py:144-149 | Once the image path is recorded, it is off the disk on every exit of the provider block, and its removal is the last step. |
| HandlerProperties.LeftBehind | app.py:124-149 | The files left behind are exactly the old ones, plus the image file when its write or read-back fails, plus Gemini's upload file for a non-empty image. |
| HandlerProperties.LeftBehindAtImage | app.py:126-132 | A request stopped at the image leaves only the image file behind, and only when its write or read-back failed. |
| HandlerProperties.LeftBehindAfterDispatch | app.py:133-149 | A request that reaches the provider block leaves only Gemini's upload file behind. |
| HandlerProperties.DispatchLeak | app.py:48-57 | The provider block leaves exactly Gemini's upload file behind. |
| HandlerProperties.SummaryScenario | app.py:117-155 | With Gemini configured, a summary request sends `[MODE: SUMMARY]\n\n` followed by the message as the only content, answers 200 with Gemini's text, and leaves the disk unchanged. |

## Left out

- Flask routing, `jsonify`, and `get_json(force=True)`. The body is a map of string fields, or `None` for a falsy JSON value.
- An empty request body and malformed JSON: `get_json(force=True)` (app.py:113) raises `BadRequest`, and Flask answers with its own 400 page before the handler's check runs.
- Truthy bodies that are not objects (a non-empty list or string, a non-zero number, `true`): `data.get` at app.py:116 raises `AttributeError`, and Flask answers 500.
- Fields whose values are not strings. Some of them make the handler raise, for instance `mode.upper()` on a number, and Flask then answers 500.
- The `user_id` default from `uuid4`, which is never used.
- The `/health` endpoint, which only reads the clock, and server start-up and its port.
- The network and the SDK: each step's outcome (`post`, `raise_for_status`, `json()`, the SDK import, the client, `files.upload`, `GenerateContentConfig`, `generate_content`) is a given value, and only its message is kept when it raises. The request-shaping constants sent to OpenAI (endpoint, headers, temperature 0.2, 800 tokens, 60 s timeout) are not modelled, apart from the model name.
- Base64 decoding is an abstract partial function supplied with the request's world. `json.dumps` and `str(response)` are opaque too.
- Text.Upper: maps ASCII letters only. Python's `upper()` also maps non-ASCII letters and can change the length.
- JSON numbers are integers. Floating-point values in a provider body are not distinguished.
- The filesystem is a set of live paths with a counter for fresh names. Failing to create Gemini's own temporary file (`NamedTemporaryFile` at app.py:49 raising) is not modelled. A failed write, flush or close of that file is modelled.
- Effects.RemoveTemp: `os.remove` is assumed to succeed. The code swallows a failed removal (app.py:148-149), which would leave the file on disk. `LeftBehind`, `LeftBehindAfterDispatch`, `NoProviderConfigured`, `ImageReachesGeminiOutcome` and `ImageWriteFaultOutcome` rest on the same assumption.
- HandlerProperties.RecordedFileRemoved: removal is assumed to succeed. The code swallows a failed `os.remove` (app.py:148-149), which would leave the file on disk, so the lemma depends on that assumption.
- Concurrency between requests is not modelled: each request is handled alone.
