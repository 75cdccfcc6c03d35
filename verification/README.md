# Profile-picture upload service, modelled in Dafny

The service is one Express route, `POST /upload`. The route takes a multipart form with an image in the field `profilePicture` and the text fields `firstName` and `lastName`. The multer middleware parses the form and writes the image to `./uploads`. The route then answers with JSON, or with a 400 error.

This project models the three pieces of decision logic in `index.js` as pure functions:

- **The file filter.** `checkFileType` tests the lower-cased extension and the MIME type that multer hands it against the unanchored pattern `jpeg|jpg|png|gif`.
- **The naming rule of the disk storage.** A stored file is named `fieldname-<milliseconds><extension>`.
- **The route's ordered decision.** It looks at the parse outcome, whether a file arrived, and the two names, in that order.

The parse stage wraps these. It refuses a file sent under an unexpected field, then runs the filter. A file the filter accepts is named when its write begins, and the 1,000,000-byte size limit aborts the write once more bytes than that arrive.

Modules:

- `Results`: `Option` and `Result`.
- `Text`: ASCII case mapping, substring search with its reference definition, and decimal rendering with its inverse.
- `FileType`: the file filter.
- `Storage`: the file-naming rule.
- `Upload`: the parse stage, the route's decision and their composition, `HandleUpload`.

Parameters stand in for what the source gets from the outside:

- `now: nat` replaces the value of `Date.now()`.
- `FilePart.extension` replaces `path.extname(file.originalname)`.
- `Option<string>` models a form field that may be absent. JavaScript truthiness is `Truthy`: present and non-empty.

Two facts about the code that are easy to misread:

- The stored name has no dash before the extension (`index.js:18`). `path.extname` keeps its leading dot, so a name looks like `profilePicture-1700000000000.png`, not `profilePicture-1700000000000-.png`.
- A stored file can exist even when the request is refused. Multer writes the file while parsing, before the route looks at the names. `Upload.StoredButRejected` shows a request that leaves a stored file behind and still gets a 400.

## Model

| member | source | states |
|---|---|---|
| Text.ContainsIffOccurs | index.js:33-35 | the executable substring search used for the unanchored pattern succeeds exactly when the token starts some suffix of the input (both directions, by induction) |
| Text.LowerOfUpper | index.js:34 | lower-casing an upper-cased string gives the same result as lower-casing the original, so extension case never reaches the filter |
| Text.Decimal | index.js:18 | the timestamp's decimal spelling is non-empty and all digits, has no leading zero, spells 0 as `0` alone, and reads back as the timestamp |
| Text.ToLower | index.js:34 | lower-casing keeps the length, turns each upper-case ASCII letter into its lower-case partner and leaves every other character unchanged |
| FileType.HasImageTokenIffPattern | index.js:33-35 | the four substring searches accept exactly the strings in which one of `jpeg`, `jpg`, `png`, `gif` occurs |
| FileType.CheckFileType | index.js:32-42 | accepts iff the lower-cased extension AND the raw MIME type each contain an alternative; every rejection carries `Error: Images Only!` |
| FileType.BothSignalsRequired | index.js:37-41 | a MIME type with no alternative is rejected whatever the extension, and so is an extension with none whatever the MIME type |
| FileType.PngAsTextPlainRejected | index.js:33-41 | `.png` with MIME type `text/plain` is rejected with the fixed message |
| FileType.TxtAsImagePngRejected | index.js:33-41 | `.txt` with MIME type `image/png` is rejected with the fixed message |
| FileType.ExtensionCaseInsensitive | index.js:34 | an extension and its upper-cased spelling get the same verdict for every MIME type |
| FileType.MimeCaseSensitive | index.js:35 | an upper-cased MIME string handed to the filter never matches, so such a file is rejected whatever its extension |
| FileType.SubstringSuffices | index.js:33 | any text around an alternative still matches the pattern |
| FileType.PaddedTokensAccepted | index.js:33-38 | `.jpgx` with MIME type `image/pngish` is accepted |
| FileType.UpperExtensionAccepted | index.js:34 | `.PNG` with MIME type `image/png` is accepted |
| FileType.UpperMimeRejected | index.js:35 | `.png` with MIME type `IMAGE/PNG` is rejected with the fixed message |
| Storage.StoredName | index.js:17-19 | the stored name starts with `fieldname-`, ends with the extension, and the part between is the timestamp's plain decimal spelling, all digits and reading back as the timestamp |
| Storage.DistinctTimestampsDistinctNames | index.js:18 | for the same field and extension, different timestamps give different names |
| Upload.Parse | index.js:23-29 | no file part gives no file and no error; a file is stored iff its field is `profilePicture`, both type signals match and it is at most 1,000,000 bytes; a stored file keeps the MIME type and size and gets the timestamped name; the unexpected-field error names the field; the filter error occurs iff the field is right and a type signal fails, and always carries `Error: Images Only!`; the size error occurs iff the field is right, both signals match and the file is over 1,000,000 bytes |
| Upload.Truthy | index.js:64 | a name counts as present iff it was sent and is not the empty string, the two falsy values a text field can take |
| Upload.Respond | index.js:54-75 | every answer is 200 or 400; 200 iff the parse gave a file and both names are truthy; the 200 body echoes the names unchanged with `file` = `uploads/` + stored name; a 400 never carries the JSON record |
| Upload.ParseErrorFirst | index.js:55-56 | a parse error is answered with 400 carrying that error, whatever the names are |
| Upload.NoFileBeforeNames | index.js:62-63 | with no file, the answer is 400 "No file selected" even when the names are missing too |
| Upload.MissingNameExactly | index.js:64-65 | the missing-name 400 happens exactly when a file arrived and a name is absent or empty |
| Upload.HandleUpload | index.js:52-77 | the route answers 200 iff a file part passes every parse gate and both names are truthy |
| Upload.ValidRequestSucceeds | index.js:66-73 | a valid request gets 200 with the names echoed and `file` = `uploads/` + the name stored for `profilePicture` at `now` |
| Upload.ServedPathShape | index.js:18 | the served path of an upload is `uploads/profilePicture-` + the decimal timestamp + the extension |
| Upload.SizeLimitBoundary | index.js:25 | an image of more than 1,000,000 bytes gets 400 with the size error whatever the names are; an image of exactly 1,000,000 bytes passes the parse stage |
| Upload.TypeCheckedBeforeSize | index.js:26-28 | a file the filter refuses gets 400 with `Error: Images Only!` whatever its size and the names |
| Upload.RepeatUploadsDistinct | index.js:18 | the same successful upload repeated at a different millisecond also succeeds and points at a different stored file |
| Upload.StoredButRejected | index.js:54-65 | a valid image sent without a first name is stored by the parse stage, yet the route answers 400 "Missing firstName or lastName" |

## Left out

- Express setup, the body parsers, static serving of `/uploads`, and `app.listen` (index.js:12, 45-49, 95-96). These are framework wiring and I/O.
- dotenv, `NODE_ENV` and `SERVER_PORT` (index.js:8-9, 95). These are configuration I/O.
- The `/example` route and the error middleware (index.js:81-92). The middleware is not part of this model, and the route only forwards an error to it.
- Multer's streaming and disk writes. A parsed file is modelled by its name, and a partial file left behind after an error is not modelled.
- The parse stage's order of checks comes from how multer handles a request, not from this file: an unexpected field is refused first, then the filter runs, then the size limit applies while the file streams. Multer itself is not part of this model.
- The MIME type the filter sees is the value multer fills in, and busboy, multer's parser, lower-cases the type and subtype of a part's Content-Type before that. So a client that sends `IMAGE/PNG` reaches the filter as `image/png`. The model takes `FilePart.mimetype` as the string handed to the filter and does not model that normalisation. `FileType.MimeCaseSensitive` and `FileType.UpperMimeRejected` are therefore facts about `checkFileType`, not about what a client may send.
- More than one file part in a request, and text fields sent as arrays or objects. The model has at most one file part and treats each name as an optional string.
- `Date.now()` and `path.extname` are foreign calls, so the model takes them as parameters. So does the regex engine: the pattern is modelled as a substring search.
- Text.ToLower: lower-cases ASCII letters only. JavaScript's `toLowerCase` also maps non-ASCII letters. The four alternatives are ASCII, so only a non-ASCII character that lower-cases to an ASCII letter could change a verdict, and the model does not cover that case.
- Text.Decimal: renders every natural number in plain digits. JavaScript switches to exponent notation at 10^21, which a millisecond clock does not reach.
- Two requests stored in the same millisecond get the same name. This is a concurrency matter; the model only proves that different timestamps give different names.
- The message texts of multer's own errors (size limit, unexpected field). The model keeps their kind, not their wording.
