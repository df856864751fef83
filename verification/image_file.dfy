/** The image half of the request: `save_base64_image_to_tempfile` followed
    by the handler reading the file back into memory. */
module ImageFile {
  import opened Common
  import opened DataUrl
  import opened Effects

  /** Filesystem failures, each with the message its exception carries:
      creating the temporary file, writing/flushing/closing it, and
      opening/reading it back. */
  datatype FsFaults = FsFaults(create: Option<string>, write: Option<string>, read: Option<string>)

  /** A decoded image on disk at `path` and in memory as `bytes`. */
  datatype Saved = Saved(path: Path, bytes: Bytes)

  /** The outcome of loading an image, the disk after it, and its steps. */
  datatype Loaded = Loaded(result: Result<Saved>, disk: Disk, trace: seq<Event>)

  /** Strip the data-URL prefix, decode, write the bytes to a new temporary
      file and read them back. Decoding comes first, so a payload the decoder
      rejects never creates a file. A failure after creation leaves the file
      behind: its path is never handed back to the caller. */
  function LoadImage(b64: string, decode: string -> Result<Bytes>, faults: FsFaults, disk: Disk): (r: Loaded)
    requires Wf(disk)
    ensures Wf(r.disk)
    ensures |r.trace| >= 1 && r.trace[0] == Decoded(StripDataUrlPrefix(b64))
    ensures NoOpenAiCall(r.trace) && NoGeminiCall(r.trace)
    ensures decode(StripDataUrlPrefix(b64)).Err? ==>
      r == Loaded(Err(decode(StripDataUrlPrefix(b64)).error), disk, [Decoded(StripDataUrlPrefix(b64))])
    ensures disk.live <= r.disk.live <= disk.live + {disk.next}
    ensures r.disk.live == disk.live <==> r.trace == [Decoded(StripDataUrlPrefix(b64))]
    ensures r.result.Ok? ==>
      && r.result.value.path == disk.next
      && r.disk.live == disk.live + {disk.next}
      && decode(StripDataUrlPrefix(b64)) == Ok(r.result.value.bytes)
      && r.trace == [Decoded(StripDataUrlPrefix(b64)), Created(disk.next), ReadBack(disk.next)]
  {
    var payload := StripDataUrlPrefix(b64);
    var decoded := [Decoded(payload)];
    match decode(payload)
    case Err(e) => Loaded(Err(e), disk, decoded)
    case Ok(bytes) =>
      if faults.create.Some? then
        Loaded(Err(faults.create.value), disk, decoded)
      else
        var (p, d) := CreateTemp(disk);
        if faults.write.Some? then
          Loaded(Err(faults.write.value), d, decoded + [Created(p)])
        else if faults.read.Some? then
          Loaded(Err(faults.read.value), d, decoded + [Created(p), ReadBack(p)])
        else
          Loaded(Ok(Saved(p, bytes)), d, decoded + [Created(p), ReadBack(p)])
  }

  /** A file whose write or read-back fails stays on disk although the
      request reports a bad image. */
  lemma LoadImageLeaksOnLateFault(b64: string, decode: string -> Result<Bytes>, faults: FsFaults, disk: Disk)
    requires Wf(disk)
    requires decode(StripDataUrlPrefix(b64)).Ok?
    requires faults.create.None?
    requires faults.write.Some? || faults.read.Some?
    ensures var r := LoadImage(b64, decode, faults, disk);
      r.result.Err? && disk.next in r.disk.live && disk.next !in disk.live
  {
  }
}
