/** The Express upload route: multer stores one image under the field `file` on disk, and
    the route answers with its public URL or maps the failure to a status and a message. */
module DiskUpload {
  import opened Base
  import opened UploadRules

  /** A file part of the multipart body: its form field, the client's file name, the
      declared MIME type and the byte count. */
  datatype FilePart = FilePart(field: string, originalName: string, mimetype: string, size: nat)

  /** An error reaching the route's error middleware: one of multer's own, with its code,
      or any other error (the file filter's, or the body parser's). */
  datatype UploadError = MulterError(code: string, message: string) | PlainError(message: string)

  /** A request as multer sees it: a failure of the body itself (cut short, malformed), if
      any, and the file parts in body order. */
  datatype Request = Request(bodyError: Option<UploadError>, parts: seq<FilePart>)

  /** `req.file` after a successful store. */
  datatype StoredFile = StoredFile(filename: string, size: nat, mimetype: string)

  datatype Body =
    | Saved(url: string, filename: string, size: nat, mimetype: string)
    | Failed(error: string)

  datatype Response = Response(status: nat, body: Body)

  const FieldName := "file"
  const LimitFileSize := "LIMIT_FILE_SIZE"
  const LimitUnexpectedFile := "LIMIT_UNEXPECTED_FILE"
  /** multer's message for a part outside `single("file")`. */
  const UnexpectedField := "Unexpected field"
  /** multer's message for a part over the size limit; the route replaces it. */
  const FileTooLarge := "File too large"
  const TooLargeReply := "File too large. Maximum size is 20MB."

  /** The configured `fileFilter`: images only, any other type rejected with a plain error. */
  function FileFilter(mimetype: string): (r: Result<bool, UploadError>)
    ensures r.Ok? <==> IsImageType(mimetype)
    ensures r.Ok? ==> r.value
    ensures r.Err? ==> r.error == PlainError(InvalidType)
  {
    if IsImageType(mimetype) then Ok(true) else Err(PlainError(InvalidType))
  }

  /** What `upload.single("file")` makes of the request: the body's own failure first; then
      for the first part, a field other than `file`, the filter's verdict and the size
      limit, in that order; a second part exceeds the one-file count. The stored name is
      built from the clock, the random integer and `path.extname` of the client's name. */
  function Receive(req: Request, now: nat, nonce: nat, extname: string -> string): (r: Result<Option<StoredFile>, UploadError>)
  {
    if req.bodyError.Some? then Err(req.bodyError.value)
    else if |req.parts| == 0 then Ok(None)
    else
      var part := req.parts[0];
      if part.field != FieldName then Err(MulterError(LimitUnexpectedFile, UnexpectedField))
      else match FileFilter(part.mimetype)
        case Err(e) => Err(e)
        case Ok(_) =>
          if part.size > MaxFileSize then Err(MulterError(LimitFileSize, FileTooLarge))
          else if |req.parts| > 1 then Err(MulterError(LimitUnexpectedFile, UnexpectedField))
          else Ok(Some(StoredFile(UniqueName(now, nonce, extname(part.originalName)), part.size, part.mimetype)))
  }

  /** The route handler and its error middleware: the size error gets the route's own
      message, every other error its message, a missing file 400, a stored one its URL. */
  function Respond(r: Result<Option<StoredFile>, UploadError>): (resp: Response)
  {
    match r
    case Err(MulterError(code, message)) =>
      if code == LimitFileSize then Response(400, Failed(TooLargeReply)) else Response(400, Failed(message))
    case Err(PlainError(message)) => Response(400, Failed(message))
    case Ok(None) => Response(400, Failed(NoFile))
    case Ok(Some(f)) => Response(200, Saved("/uploads/" + f.filename, f.filename, f.size, f.mimetype))
  }

  /** The one-file, image-only, at-most-20-MiB rule the route enforces. */
  predicate Acceptable(req: Request) {
    && req.bodyError.None?
    && |req.parts| == 1
    && req.parts[0].field == FieldName
    && IsImageType(req.parts[0].mimetype)
    && req.parts[0].size <= MaxFileSize
  }

  /** `POST /`: multer, then the handler or the error middleware. Every failure is a 400:
      the size limit with the route's message, any other error with its own message, and a
      request without a file with `No file uploaded`. */
  function Upload(req: Request, now: nat, nonce: nat, extname: string -> string): (resp: Response)
    ensures resp.status == 200 || resp.status == 400
    ensures resp.status == 200 <==> Acceptable(req)
    ensures resp.status == 200 ==>
      var part := req.parts[0];
      var name := UniqueName(now, nonce, extname(part.originalName));
      resp.body == Saved("/uploads/" + name, name, part.size, part.mimetype)
    ensures resp.status == 400 ==> resp.body.Failed?
    ensures req.bodyError.Some? && req.bodyError.value.PlainError? ==>
      resp == Response(400, Failed(req.bodyError.value.message))
    ensures req.bodyError.Some? && req.bodyError.value.MulterError? ==>
      resp == Response(400, Failed(
        if req.bodyError.value.code == LimitFileSize then TooLargeReply else req.bodyError.value.message))
    ensures req.bodyError.None? && req.parts == [] ==> resp == Response(400, Failed(NoFile))
    ensures req.bodyError.None? && |req.parts| > 0 && req.parts[0].field != FieldName ==>
      resp == Response(400, Failed(UnexpectedField))
    ensures req.bodyError.None? && |req.parts| > 0 && req.parts[0].field == FieldName ==>
      && (!IsImageType(req.parts[0].mimetype) ==> resp == Response(400, Failed(InvalidType)))
      && (IsImageType(req.parts[0].mimetype) && req.parts[0].size > MaxFileSize ==>
            resp == Response(400, Failed(TooLargeReply)))
  {
    Respond(Receive(req, now, nonce, extname))
  }

  /** The public URL names the stored file, and the stored name reads back as the clock
      reading, the random integer and the original extension; so two uploads that differ in
      clock reading or random integer never share a URL. */
  lemma StoredNameReadsBack(req: Request, now: nat, nonce: nat, extname: string -> string)
    requires Acceptable(req)
    requires IsExtension(extname(req.parts[0].originalName))
    ensures var resp := Upload(req, now, nonce, extname);
      && resp.body.Saved?
      && resp.body.url == "/uploads/" + resp.body.filename
      && ParseName(resp.body.filename) == Some(NameParts(now, nonce, extname(req.parts[0].originalName)))
  {
    NameRoundTrip(now, nonce, extname(req.parts[0].originalName));
  }
}
