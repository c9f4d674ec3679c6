/** The serverless upload handler: formidable parses the body into temporary files, and the
    handler answers with the image inlined as a `data:` URL, removing the temporary file. */
module ServerlessUpload {
  import opened Base
  import opened UploadRules
  import opened Text

  type byte = bv8

  /** A file formidable wrote to the temporary directory. */
  datatype TempFile = TempFile(
    filepath: string, originalFilename: Option<string>, mimetype: Option<string>,
    size: nat, content: seq<byte>)

  /** `files.file`: absent, one file, or an array of them. */
  datatype FileEntry = NoEntry | One(file: TempFile) | Several(files: seq<TempFile>)

  /** An error thrown while handling; `message` is absent when the thrown value has none. */
  datatype Fault = Fault(message: Option<string>)

  /** The request: its HTTP method, the `file` entry of the body, and the fault formidable raises
      for a malformed body, if any. */
  datatype Request = Request(verb: string, entry: FileEntry, malformed: Option<Fault>)

  datatype Body =
    | Stored(url: string, filename: string, size: nat, mimetype: string, message: string)
    | Failed(error: string)

  datatype Reply = Reply(status: nat, body: Body) {
    /** The `success` flag of the JSON body. */
    predicate Success() { body.Stored? }
  }

  /** The reply together with the temporary files the handler unlinked, in order. */
  datatype Outcome = Outcome(reply: Reply, unlinked: seq<string>)

  const Post := "POST"
  const MethodNotAllowed := "Method not allowed"
  const UploadFailed := "Upload failed"
  const StorageNote := "Note: File stored as base64. For production, configure cloud storage (S3, Cloudinary, etc.)"

  /** Every file of the entry, whether or not the handler looks at it. */
  function EntryFiles(e: FileEntry): seq<TempFile> {
    match e
    case NoEntry => []
    case One(f) => [f]
    case Several(fs) => fs
  }

  /** `form.parse` with `maxFileSize` 20 MiB: the malformed-body fault, else `limitFault` when
      a file exceeds the bound, else the entry. */
  function Parse(req: Request, limitFault: Fault): (r: Result<FileEntry, Fault>)
    ensures r.Ok? <==> req.malformed.None? && forall f :: f in EntryFiles(req.entry) ==> f.size <= MaxFileSize
    ensures r.Ok? ==> r.value == req.entry
  {
    if req.malformed.Some? then Err(req.malformed.value)
    else if exists f :: f in EntryFiles(req.entry) && f.size > MaxFileSize then Err(limitFault)
    else Ok(req.entry)
  }

  /** `Array.isArray(e) ? e[0] : e`: the first file of an array (none for an empty one). */
  function Pick(e: FileEntry): (r: Option<TempFile>)
    ensures r.None? <==> EntryFiles(e) == []
    ensures r.Some? ==> r.value == EntryFiles(e)[0]
  {
    match e
    case NoEntry => None
    case One(f) => Some(f)
    case Several(fs) => if |fs| > 0 then Some(fs[0]) else None
  }

  /** `error?.message || 'Upload failed'`: an empty or missing message falls back. */
  function ErrorText(f: Fault): (t: string)
    ensures t != []
    ensures f.message.Some? && f.message.value != [] ==> t == f.message.value
    ensures !(f.message.Some? && f.message.value != []) ==> t == UploadFailed
  {
    if f.message.Some? && f.message.value != [] then f.message.value else UploadFailed
  }

  /** `data:<mime>;base64,<payload>`. */
  function DataUrl(mime: string, payload: string): string {
    "data:" + mime + ";base64," + payload
  }

  /** Reads a `data:` URL back: the media type up to the first `;`, which must open
      `;base64,`, and the payload after it. */
  function ParseDataUrl(url: string): (r: Option<(string, string)>)
  {
    if |url| < 5 || url[..5] != "data:" then None
    else
      var rest := url[5..];
      var i := IndexOf(rest, ';');
      if |rest| - i < 8 || rest[i..i + 8] != ";base64," then None
      else Some((rest[..i], rest[i + 8..]))
  }

  /** The request path. The clock, the random integer, `path.extname`, the base64 encoder and
      the fault formidable raises for an oversized file are parameters. */
  function Handle(req: Request, now: nat, nonce: nat, extname: string -> string,
                  base64: seq<byte> -> string, limitFault: Fault): (o: Outcome)
    ensures o.reply.status in {200, 400, 405, 500}
    ensures o.reply.status == 405 <==> req.verb != Post
    ensures o.reply.status == 405 ==> o == Outcome(Reply(405, Failed(MethodNotAllowed)), [])
    ensures o.reply.Success() <==> o.reply.status == 200
    ensures o.reply.status == 200 <==>
      && req.verb == Post
      && Parse(req, limitFault).Ok?
      && Pick(req.entry).Some?
      && IsImageType(Pick(req.entry).value.mimetype.GetOr(""))
    ensures req.verb == Post && Parse(req, limitFault).Err? ==>
      o == Outcome(Reply(500, Failed(ErrorText(Parse(req, limitFault).error))), [])
    ensures req.verb == Post && Parse(req, limitFault).Ok? && Pick(req.entry).None? ==>
      o == Outcome(Reply(400, Failed(NoFile)), [])
    ensures req.verb == Post && Parse(req, limitFault).Ok? && Pick(req.entry).Some? ==>
      var f := Pick(req.entry).value;
      && o.unlinked == [f.filepath]
      && (!IsImageType(f.mimetype.GetOr("")) ==> o.reply == Reply(400, Failed(InvalidType)))
      && (IsImageType(f.mimetype.GetOr("")) ==>
            o.reply.body == Stored(
              DataUrl(f.mimetype.value, base64(f.content)),
              UniqueName(now, nonce, extname(f.originalFilename.GetOr(""))),
              f.size, f.mimetype.value, StorageNote))
  {
    if req.verb != Post then Outcome(Reply(405, Failed(MethodNotAllowed)), [])
    else match Parse(req, limitFault)
      case Err(fault) => Outcome(Reply(500, Failed(ErrorText(fault))), [])
      case Ok(entry) =>
        match Pick(entry)
        case None => Outcome(Reply(400, Failed(NoFile)), [])
        case Some(f) =>
          if !IsImageType(f.mimetype.GetOr("")) then Outcome(Reply(400, Failed(InvalidType)), [f.filepath])
          else
            var mime := f.mimetype.value;
            var name := UniqueName(now, nonce, extname(f.originalFilename.GetOr("")));
            Outcome(Reply(200, Stored(DataUrl(mime, base64(f.content)), name, f.size, mime, StorageNote)), [f.filepath])
  }

  /** No whitelisted type contains `;`, so its `data:` URL splits back at the right place. */
  lemma ImageTypesHaveNoSemicolon(mime: string)
    requires IsImageType(mime)
    ensures ';' !in mime
  {
  }

  /** A `data:` URL over a media type without `;` reads back as that type and payload. */
  lemma {:induction false} DataUrlRoundTrip(mime: string, payload: string)
    requires ';' !in mime
    ensures ParseDataUrl(DataUrl(mime, payload)) == Some((mime, payload))
  {
    var url := DataUrl(mime, payload);
    var rest := mime + ";base64," + payload;
    assert url[..5] == "data:" && url[5..] == rest;
    IndexOfPrefix(mime, ';', ";base64," + payload);
    assert rest == mime + (";base64," + payload);
    assert rest[|mime|..|mime| + 8] == ";base64,";
    assert rest[..|mime|] == mime && rest[|mime| + 8..] == payload;
  }

  /** A successful reply's URL reads back as the file's type and its base64 content, and its
      file name as the clock reading, the random integer and the extension. */
  lemma StoredReadsBack(req: Request, now: nat, nonce: nat, extname: string -> string,
                        base64: seq<byte> -> string, limitFault: Fault)
    requires Handle(req, now, nonce, extname, base64, limitFault).reply.status == 200
    requires IsExtension(extname(Pick(req.entry).value.originalFilename.GetOr("")))
    ensures var f := Pick(req.entry).value;
      var body := Handle(req, now, nonce, extname, base64, limitFault).reply.body;
      && ParseDataUrl(body.url) == Some((body.mimetype, base64(f.content)))
      && ParseName(body.filename) == Some(NameParts(now, nonce, extname(f.originalFilename.GetOr(""))))
  {
    var f := Pick(req.entry).value;
    ImageTypesHaveNoSemicolon(f.mimetype.value);
    DataUrlRoundTrip(f.mimetype.value, base64(f.content));
    NameRoundTrip(now, nonce, extname(f.originalFilename.GetOr("")));
  }

  /** Of an array of several files only the first is looked at and removed; the others stay
      in the temporary directory. */
  lemma OnlyFirstRemoved(req: Request, now: nat, nonce: nat, extname: string -> string,
                         base64: seq<byte> -> string, limitFault: Fault)
    requires req.verb == Post && Parse(req, limitFault).Ok?
    requires req.entry.Several? && |req.entry.files| > 0
    ensures var o := Handle(req, now, nonce, extname, base64, limitFault);
      o.unlinked == [req.entry.files[0].filepath]
      && forall i :: 1 <= i < |req.entry.files| && req.entry.files[i].filepath != req.entry.files[0].filepath ==>
        req.entry.files[i].filepath !in o.unlinked
  {
  }
}
