/** The `/upload` route: the multipart parse stage (field-name check, file
    filter, size limit, naming of the stored file) followed by the route's own
    ordered decision over the parse outcome and the two text fields. */
module Upload {
  import opened Results
  import opened Text
  import opened FileType
  import opened Storage

  /** The one form field allowed to carry a file. */
  const FileField: string := "profilePicture"

  /** Largest accepted file, in bytes. */
  const MaxFileSize: nat := 1000000

  /** Directory the stored files are written to and served from. */
  const UploadDir: string := "uploads"

  const SuccessMessage: string := "File uploaded successfully!"
  const NoFileMessage: string := "Error: No file selected!"
  const MissingNameMessage: string := "Error: Missing firstName or lastName"

  /** The file part of a request as the parser sees it: the field that carried
      it, the extension of the client's file name (with its dot, or empty), the
      MIME type as the parser hands it to the file filter, and the number of
      bytes sent. */
  datatype FilePart = FilePart(fieldname: string, extension: string, mimetype: string, size: nat)

  /** The file the parser wrote to the upload directory. */
  datatype StoredFile = StoredFile(fieldname: string, mimetype: string, size: nat, filename: string)

  /** Why the parse stage aborted. */
  datatype ParseError =
    | UnexpectedField(field: string)   // a file arrived under another field name
    | FilterRejected(message: string)  // the file filter refused the file
    | FileTooLarge                     // the file ran past the size limit

  /** The JSON body of a successful upload. */
  datatype UploadRecord = UploadRecord(message: string, firstName: string, lastName: string, file: string)

  /** What a response carries: the parser's error value as is, a plain text
      message, or a JSON record. */
  datatype Body = ErrorValue(error: ParseError) | PlainText(text: string) | Json(record: UploadRecord)

  datatype Response = Response(status: nat, body: Body)

  /** JavaScript truthiness of a form field: the falsy values a text field can
      take are `undefined` (never sent) and the empty string. */
  function Truthy(field: Option<string>): (present: bool)
    ensures present <==> field != None && field != Some("")
  {
    field.Some? && |field.value| > 0
  }

  /** A file part that passes every gate of the parse stage. */
  ghost predicate AcceptablePart(p: FilePart) {
    && p.fieldname == FileField
    && MatchesImagePattern(ToLower(p.extension))
    && MatchesImagePattern(p.mimetype)
    && p.size <= MaxFileSize
  }

  /** The parse stage. No file part is not an error. A file under the wrong
      field is refused first, then the file filter decides. A file the filter
      kept is named from the clock reading `now` when its write begins, and the
      size limit aborts that write once more bytes than the limit arrive. */
  function Parse(part: Option<FilePart>, now: nat): (r: Result<Option<StoredFile>, ParseError>)
    ensures r == Ok(None) <==> part.None?
    ensures r.Ok? && r.value.Some? <==> part.Some? && AcceptablePart(part.value)
    ensures r.Ok? && r.value.Some? ==>
      r.value.value == StoredFile(FileField, part.value.mimetype, part.value.size,
                                  StoredName(FileField, now, part.value.extension))
    ensures r.Err? && r.error.UnexpectedField? ==>
      part.Some? && part.value.fieldname != FileField && r.error.field == part.value.fieldname
    ensures r.Err? && r.error.FilterRejected? ==> r.error.message == ImagesOnlyMessage
    ensures r.Err? && r.error.FilterRejected? <==>
      (part.Some? && part.value.fieldname == FileField
       && !(MatchesImagePattern(ToLower(part.value.extension)) && MatchesImagePattern(part.value.mimetype)))
    ensures r == Err(FileTooLarge) <==>
      (part.Some? && part.value.fieldname == FileField
       && MatchesImagePattern(ToLower(part.value.extension)) && MatchesImagePattern(part.value.mimetype)
       && part.value.size > MaxFileSize)
  {
    match part
    case None => Ok(None)
    case Some(p) =>
      if p.fieldname != FileField then Err(UnexpectedField(p.fieldname))
      else match CheckFileType(p.extension, p.mimetype)
        case Reject(message) => Err(FilterRejected(message))
        case Accept =>
          if p.size > MaxFileSize then Err(FileTooLarge)
          else Ok(Some(StoredFile(p.fieldname, p.mimetype, p.size,
                                  StoredName(p.fieldname, now, p.extension))))
  }

  /** The route's decision once parsing is over. Success (200) happens exactly
      when the parse produced a file and both names are truthy, and it echoes
      the names unchanged with the stored file's path under the upload
      directory; every other outcome is a 400. */
  function Respond(parsed: Result<Option<StoredFile>, ParseError>,
                   firstName: Option<string>, lastName: Option<string>): (resp: Response)
    ensures resp.status == 200 || resp.status == 400
    ensures resp.status == 200 <==> parsed.Ok? && parsed.value.Some? && Truthy(firstName) && Truthy(lastName)
    ensures resp.status == 200 ==>
      resp.body == Json(UploadRecord(SuccessMessage, firstName.value, lastName.value,
                                     UploadDir + "/" + parsed.value.value.filename))
    ensures resp.status == 400 <==> !resp.body.Json?
  {
    match parsed
    case Err(e) => Response(400, ErrorValue(e))
    case Ok(file) =>
      if file.None? then Response(400, PlainText(NoFileMessage))
      else if !Truthy(firstName) || !Truthy(lastName) then Response(400, PlainText(MissingNameMessage))
      else Response(200, Json(UploadRecord(SuccessMessage, firstName.value, lastName.value,
                                           UploadDir + "/" + file.value.filename)))
  }

  /** A parse error is reported as it is, whatever the text fields hold. */
  lemma ParseErrorFirst(e: ParseError, first: Option<string>, last: Option<string>)
    ensures Respond(Err(e), first, last) == Response(400, ErrorValue(e))
  {
  }

  /** A missing file is reported before missing names, even when both are
      missing. */
  lemma NoFileBeforeNames(first: Option<string>, last: Option<string>)
    ensures Respond(Ok(None), first, last) == Response(400, PlainText(NoFileMessage))
  {
  }

  /** The missing-name error is reported exactly when a file arrived and a
      name is absent or empty. */
  lemma MissingNameExactly(parsed: Result<Option<StoredFile>, ParseError>,
                           first: Option<string>, last: Option<string>)
    ensures Respond(parsed, first, last) == Response(400, PlainText(MissingNameMessage)) <==>
      parsed.Ok? && parsed.value.Some? && (!Truthy(first) || !Truthy(last))
  {
  }

  /** The whole route: parse the request, then decide. */
  function HandleUpload(part: Option<FilePart>, now: nat,
                        firstName: Option<string>, lastName: Option<string>): (resp: Response)
    ensures resp.status == 200 <==>
      part.Some? && AcceptablePart(part.value) && Truthy(firstName) && Truthy(lastName)
  {
    Respond(Parse(part, now), firstName, lastName)
  }

  /** A valid request succeeds: the record echoes the names and points at the
      file stored as `profilePicture-<now><extension>` under the upload
      directory. */
  lemma ValidRequestSucceeds(p: FilePart, now: nat, first: string, last: string)
    requires AcceptablePart(p)
    requires first != "" && last != ""
    ensures HandleUpload(Some(p), now, Some(first), Some(last)) ==
      Response(200, Json(UploadRecord(SuccessMessage, first, last,
                                      UploadDir + "/" + StoredName(FileField, now, p.extension))))
  {
    var stored := StoredFile(FileField, p.mimetype, p.size, StoredName(FileField, now, p.extension));
    assert Parse(Some(p), now) == Ok(Some(stored));
  }

  /** The served path of a stored upload, spelled out. */
  lemma ServedPathShape(now: nat, extension: string)
    ensures UploadDir + "/" + StoredName(FileField, now, extension)
         == "uploads/profilePicture-" + Decimal(now) + extension
  {
  }

  /** An image over the limit, by one byte or by any number, is refused with the
      size error whatever the text fields hold; an image exactly at the limit
      is not. */
  lemma SizeLimitBoundary(p: FilePart, now: nat, first: Option<string>, last: Option<string>)
    requires p.fieldname == FileField
    requires CheckFileType(p.extension, p.mimetype) == Accept
    ensures p.size > MaxFileSize ==>
      HandleUpload(Some(p), now, first, last) == Response(400, ErrorValue(FileTooLarge))
    ensures p.size == MaxFileSize ==> Parse(Some(p), now).Ok?
  {
  }

  /** The type filter runs before the size limit: a non-image is refused as
      such however large it is. */
  lemma TypeCheckedBeforeSize(p: FilePart, now: nat, first: Option<string>, last: Option<string>)
    requires p.fieldname == FileField
    requires !MatchesImagePattern(ToLower(p.extension)) || !MatchesImagePattern(p.mimetype)
    ensures HandleUpload(Some(p), now, first, last) ==
      Response(400, ErrorValue(FilterRejected(ImagesOnlyMessage)))
  {
  }

  /** Uploading the same file twice at different clock readings gives two
      successes that point at two different stored files. */
  lemma RepeatUploadsDistinct(p: FilePart, t1: nat, t2: nat, first: Option<string>, last: Option<string>)
    requires t1 != t2
    requires HandleUpload(Some(p), t1, first, last).status == 200
    ensures HandleUpload(Some(p), t2, first, last).status == 200
    ensures HandleUpload(Some(p), t1, first, last).body.record.file
         != HandleUpload(Some(p), t2, first, last).body.record.file
  {
    var prefix := UploadDir + "/";
    var n1 := StoredName(FileField, t1, p.extension);
    var n2 := StoredName(FileField, t2, p.extension);
    DistinctTimestampsDistinctNames(FileField, t1, t2, p.extension);
    assert (prefix + n1)[|prefix|..] == n1;
    assert (prefix + n2)[|prefix|..] == n2;
  }

  /** The parser writes the file before the route looks at the names: a
      request with a valid image and no first name leaves a stored file behind
      and still answers 400. */
  lemma StoredButRejected(now: nat)
    ensures Parse(Some(FilePart(FileField, ".png", "image/png", 10)), now).Ok?
    ensures Parse(Some(FilePart(FileField, ".png", "image/png", 10)), now).value.Some?
    ensures HandleUpload(Some(FilePart(FileField, ".png", "image/png", 10)), now, None, Some("Doe"))
         == Response(400, PlainText(MissingNameMessage))
  {
    SubstringSuffices(".", 2, "");
    assert ToLower(".png") == "." + ImageTokens[2] + "";
    SubstringSuffices("image/", 2, "");
    assert "image/png" == "image/" + ImageTokens[2] + "";
  }
}
