/**
 * The Multer glue found three times in the service (src/lib/multerConfig.ts,
 * src/middleware/multerConfig.ts and src/middleware/upload.ts): the file
 * filter that accepts or rejects a file before it is stored, the table from
 * Multer error codes to messages, and the error handler that turns a Multer
 * error into a 400 response.
 */
module MulterConfig {
  import opened Maybe
  import opened Text
  import opened FileUtils
  import opened Uploads

  /** What the filter passes to its callback: `cb(null, true)` or `cb(new Error(…))`. */
  datatype FilterVerdict = Accept | Reject(error: Thrown)

  /** The text of the filter's rejection, naming the MIME type and the extension. */
  function RejectionMessage(file: UploadedFile): string {
    "File type not allowed: " + file.mimeType + " (" + FileExtension(file.originalName) + ")"
  }

  /**
   * `fileFilter`: a file is accepted exactly when both its MIME type and its
   * extension are allow-listed; otherwise the callback receives a plain
   * `Error` naming both.
   */
  function FileFilter(file: UploadedFile, config: FileUploadConfig): (v: FilterVerdict)
    ensures v.Accept? <==>
      file.mimeType in config.allowedMimeTypes && FileExtension(file.originalName) in config.allowedExtensions
    ensures v.Reject? ==> v.error == JsError("Error", RejectionMessage(file))
  {
    var ext := FileExtension(file.originalName);
    if file.mimeType in config.allowedMimeTypes && ext in config.allowedExtensions then Accept
    else Reject(JsError("Error", RejectionMessage(file)))
  }

  /**
   * The rejection message starts with the fixed text, quotes the MIME type
   * right after it and ends with the extension in parentheses.
   */
  lemma RejectionNamesBoth(file: UploadedFile)
    ensures var m := RejectionMessage(file);
      var k := |"File type not allowed: "|;
      StartsWith(m, "File type not allowed: ")
      && m[k..k + |file.mimeType|] == file.mimeType
      && EndsWith(m, " (" + FileExtension(file.originalName) + ")")
  {
    var ext := FileExtension(file.originalName);
    var m := RejectionMessage(file);
    var k := |"File type not allowed: "|;
    assert m == "File type not allowed: " + file.mimeType + (" (" + ext + ")");
    assert m[k..k + |file.mimeType|] == file.mimeType;
    assert m[|m| - |" (" + ext + ")"|..] == " (" + ext + ")";
  }

  /** `MULTER_ERROR_MESSAGES` (src/constants/multerErrors.ts and two inline copies). */
  const MulterErrorMessages: map<string, string> := map[
    "LIMIT_FILE_SIZE" := "File too large",
    "LIMIT_FILE_COUNT" := "Too many files",
    "LIMIT_UNEXPECTED_FILE" := "Unexpected file field",
    "LIMIT_PART_COUNT" := "Too many parts",
    "LIMIT_FIELD_KEY" := "Field name too long",
    "LIMIT_FIELD_VALUE" := "Field value too long",
    "LIMIT_FIELD_COUNT" := "Too many fields"
  ]

  const DefaultUploadError: string := "File upload error"

  /** Looking a code up in the table; the object's inherited keys are not part of the model. */
  function LookupCode(code: string): Option<string> {
    if code in MulterErrorMessages then Some(MulterErrorMessages[code]) else None
  }

  /**
   * `getMulterErrorMessage` of the two multerConfig files: the table entry,
   * or the default when the entry is missing or empty (`||`).
   */
  function MulterErrorMessage(code: string): (m: string)
    ensures m != ""
    ensures code in MulterErrorMessages ==> m == MulterErrorMessages[code]
    ensures code !in MulterErrorMessages ==> m == DefaultUploadError
  {
    var entry := LookupCode(code);
    if entry.None? || entry.value == "" then DefaultUploadError else entry.value
  }

  /**
   * `getMulterErrorMessage` of src/middleware/upload.ts: the table entry, or
   * the default only when the entry is missing (`??`).
   */
  function NullishMulterErrorMessage(code: string): (m: string)
    ensures code in MulterErrorMessages ==> m == MulterErrorMessages[code]
    ensures code !in MulterErrorMessages ==> m == DefaultUploadError
  {
    match LookupCode(code)
    case Some(text) => text
    case None => DefaultUploadError
  }

  /**
   * The two spellings agree on every code, because no table entry is the
   * empty string; and every message is one of eight fixed texts.
   */
  lemma ErrorMessageCopiesAgree(code: string)
    ensures NullishMulterErrorMessage(code) == MulterErrorMessage(code)
    ensures MulterErrorMessage(code) in MulterErrorMessages.Values + {DefaultUploadError}
  {
    if code in MulterErrorMessages {
      assert MulterErrorMessages[code] in MulterErrorMessages.Values;
    }
  }

  /** The table knows exactly the seven `LIMIT_*` codes, and none of them maps to the default text. */
  lemma SevenKnownCodes()
    ensures MulterErrorMessages.Keys == {"LIMIT_FILE_SIZE", "LIMIT_FILE_COUNT", "LIMIT_UNEXPECTED_FILE",
      "LIMIT_PART_COUNT", "LIMIT_FIELD_KEY", "LIMIT_FIELD_VALUE", "LIMIT_FIELD_COUNT"}
    ensures forall code :: code in MulterErrorMessages ==> MulterErrorMessage(code) != DefaultUploadError
  {
  }

  /**
   * `handleMulterError`: a `MulterError` is answered with 400, the message
   * for its code and the error's own message as the only entry of `errors`;
   * any other error is handed to `next` unchanged and nothing is written.
   */
  function HandleMulterError(error: Thrown): (o: Outcome)
    ensures o.Respond? <==> error.MulterError?
    ensures o.Respond? ==>
      (o.reply.status == 400 && !o.reply.success
       && o.reply.message == MulterErrorMessage(error.code)
       && o.reply.errors == [error.message] && o.reply.warnings.None?)
    ensures o.NextWithError? ==> o.error == error
    ensures !o.Next?
  {
    match error
    case MulterError(code, message) => Respond(Reply(400, false, MulterErrorMessage(code), [message], None))
    case _ => NextWithError(error)
  }
}
