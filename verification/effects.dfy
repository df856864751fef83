/** What a request does to the world outside the handler: the temporary
    files on disk, and a trace of the observable steps it takes (decoding,
    file creation and removal, provider calls). */
module Effects {
  import opened Common

  /** A temporary file's path; `tempfile` hands out names that are never
      reused, modelled by a counter. */
  type Path = nat

  /** The temporary files currently on disk, and the next unused name. */
  datatype Disk = Disk(live: set<Path>, next: Path)

  /** Every live path was handed out before `next`. */
  predicate Wf(d: Disk)
  {
    forall p :: p in d.live ==> p < d.next
  }

  /** `tempfile.NamedTemporaryFile(delete=False)`: a new file under a fresh
      name, left on disk. */
  function CreateTemp(d: Disk): (r: (Path, Disk))
    requires Wf(d)
    ensures r.0 !in d.live
    ensures r.1.live == d.live + {r.0}
    ensures Wf(r.1)
  {
    (d.next, Disk(d.live + {d.next}, d.next + 1))
  }

  /** `os.remove(path)` inside a `try ... except: pass`. The removal is
      assumed to succeed; a path that is already gone leaves the disk as it was. */
  function RemoveTemp(d: Disk, p: Path): (r: Disk)
    requires Wf(d)
    ensures r.live == d.live - {p}
    ensures Wf(r)
  {
    Disk(d.live - {p}, d.next)
  }

  /** One element of the list handed to Gemini's `generate_content`. */
  datatype Content =
    | FilePart(name: string)   // the handle `client.files.upload` returned
    | TextPart(text: string)

  /** The observable steps of one request, in order. */
  datatype Event =
    | Decoded(payload: string)                  // base64 decoding of the stripped payload
    | Created(path: Path)                       // a temporary file was created
    | ReadBack(path: Path)                      // the temporary file was read back
    | Removed(path: Path)                       // `os.remove` was attempted
    | Uploaded(path: Path)                      // Gemini file upload was attempted
    | Generated(model: string, contents: seq<Content>, instruction: Option<string>)
    | Posted(model: string, system: string, user: string)   // OpenAI chat completion request

  /** No step of the trace is a request to OpenAI. */
  predicate NoOpenAiCall(t: seq<Event>)
  {
    forall k :: 0 <= k < |t| ==> !t[k].Posted?
  }

  /** No step of the trace is an upload to or a generation by Gemini. */
  predicate NoGeminiCall(t: seq<Event>)
  {
    forall k :: 0 <= k < |t| ==> !t[k].Uploaded? && !t[k].Generated?
  }

  /** Both properties hold of a concatenation exactly when they hold of its parts. */
  lemma NoCallConcat(a: seq<Event>, b: seq<Event>)
    ensures NoOpenAiCall(a + b) <==> NoOpenAiCall(a) && NoOpenAiCall(b)
    ensures NoGeminiCall(a + b) <==> NoGeminiCall(a) && NoGeminiCall(b)
  {
    if NoOpenAiCall(a) && NoOpenAiCall(b) {
      forall k | 0 <= k < |a + b|
        ensures !(a + b)[k].Posted?
      {
        if k >= |a| {
          assert (a + b)[k] == b[k - |a|];
        }
      }
    }
    if NoGeminiCall(a) && NoGeminiCall(b) {
      forall k | 0 <= k < |a + b|
        ensures !(a + b)[k].Uploaded? && !(a + b)[k].Generated?
      {
        if k >= |a| {
          assert (a + b)[k] == b[k - |a|];
        }
      }
    }
    if NoOpenAiCall(a + b) {
      forall k | 0 <= k < |a|
        ensures !a[k].Posted?
      {
        assert (a + b)[k] == a[k];
      }
      forall k | 0 <= k < |b|
        ensures !b[k].Posted?
      {
        assert (a + b)[|a| + k] == b[k];
      }
    }
    if NoGeminiCall(a + b) {
      forall k | 0 <= k < |a|
        ensures !a[k].Uploaded? && !a[k].Generated?
      {
        assert (a + b)[k] == a[k];
      }
      forall k | 0 <= k < |b|
        ensures !b[k].Uploaded? && !b[k].Generated?
      {
        assert (a + b)[|a| + k] == b[k];
      }
    }
  }
}
