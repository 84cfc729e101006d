# Climate document upload gateway — a Dafny model

This project models the core of a small Express gateway. The gateway accepts
climate-risk documents as multipart uploads, validates them, and forwards
them one by one to an external processing service. It also serves a
question catalog and a few query helpers. The parts modelled are:

- **Generic upload validation.** Multer's file filter and its error handler,
  the `validateFile` middleware with its count, size, MIME-type, extension,
  suspicious-name and empty-file checks, and the normalisation of
  `req.file` / `req.files` into one list.
- **Climate validation pipeline.** The per-file type and size checks, the
  suspicious-name warnings, the structure validators (PDF, CSV, TXT, DOCX,
  XLSX) and the `validateClimateDocument` middleware's decision.
- **Upload orchestration.** Admission of a request, the per-file loop that
  isolates failures, the mapping of a timed-out or failed service call to a
  failed result, the 200/207 summary, generated file ids and the status
  endpoint.
- **Question catalog.** An in-memory list that submissions append to,
  lookups that take the first match, and the defaults for missing answers
  and explanations.
- **Query helpers.** Find-first, filter, total and average over documents and
  processing requests.
- **Header builders.** The Basic credentials of section 2 of RFC 7617,
  Base64-encoded with the alphabet of section 4 of RFC 4648, plus Bearer
  tokens and the JSON defaults.

Each source file becomes one module. Pure helpers become functions. Code
that appends to caller-owned arrays becomes methods on small classes
(`ClimateTypes.Findings`, `FileValidation.MessageLists`). The question list
that `submitQuestion` pushes to becomes `QuestionController.QuestionCatalog`.
The per-file upload loop is a method with a loop invariant. Shared
JavaScript built-ins are modelled once:

- `Text`: `trim`, ASCII `toLowerCase`, `split`, `lastIndexOf`,
  `toString(radix)`;
- `Encoding`: `toString('ascii')`, `toString('hex')`, UTF-8;
- `Base64`;
- `Seqs`: `filter`, `find`, `map`, `reduce`.

Definitions duplicated across the repository are defined once. These are the
four copies of `extractFilesFromRequest`, the three Multer filters and error
handlers, and the four `getFileExtension` copies. Where two copies differ,
both are modelled and a lemma relates them:

- `getMulterErrorMessage` uses `||` in two copies and `??` in one;
- the two `validateFiles` call different suspicious-name tests.

The clock, the random bytes, the network call and the UTF-8 decoder are
inputs to the model.

The validation map of the climate middleware has PDF, CSV, TXT, DOCX and
XLSX validators. But `validateBasicFileStructure`
(src/validation/climateValidation.ts:259) passes the undotted text after the
last dot to a map keyed by dotted extensions, so the lookup falls back to
`txt`. With the maps read by their literal keys, every file therefore runs
only the TXT check. The model reproduces this: see
`ClimateValidation.EveryFileGetsTxtCheck` and
`ClimateValidation.ClimateFileCodes`. The one exception in the source, for
inherited object keys, is listed under "Left out". The PDF, CSV, DOCX and
XLSX validators are still modelled and proved on their own.

## Model

| member | source | states |
|---|---|---|
| Text.Lower | src/lib/fileUtils.ts:5 | lower-casing keeps the length |
| Text.LowerAt | src/lib/fileUtils.ts:5 | lower-casing works character by character |
| Text.LowerFacts | src/lib/fileUtils.ts:5 | the result has no upper-case letter, lower-casing is idempotent, and dots stay where they were |
| Text.LowerSuffix | src/lib/fileUtils.ts:5 | lower-casing commutes with taking a suffix |
| Text.LastIndexOf | src/lib/fileUtils.ts:4 | `lastIndexOf` is -1 exactly when the character is absent; otherwise that position holds it and no later one does |
| Text.LastIndexOfIs | src/lib/fileUtils.ts:4 | a position holding the character with none after it is what `lastIndexOf` returns |
| Text.TrimStart | src/controllers/questionController.ts:42 | the removed prefix is whitespace and the rest starts with a non-whitespace character |
| Text.TrimEnd | src/controllers/questionController.ts:42 | the removed suffix is whitespace and the rest ends with a non-whitespace character |
| Text.Trim | src/controllers/questionController.ts:42 | `trim()` is empty exactly when the string is all whitespace, and otherwise starts and ends with non-whitespace |
| Text.TrimIdempotent | src/controllers/questionController.ts:57 | trimming a trimmed string changes nothing |
| Text.JsLength | src/validation/climateValidationHelpers.ts:77-102 | `length` counts UTF-16 units: between one and two per character, zero only for the empty string |
| Text.Split | src/validation/climateValidationHelpers.ts:46-72 | `split` gives at least one piece and no piece contains the separator |
| Text.SplitJoin | src/validation/climateValidationHelpers.ts:46-72 | joining the pieces of a split with the separator gives back the text |
| Text.NatToRadix | src/controllers/uploadController.ts:173 | `toString(36)` writes digits below the base with no leading zero |
| Text.RadixRoundTrip | src/controllers/uploadController.ts:173 | reading back the digits gives the number |
| Text.RadixInjective | src/controllers/uploadController.ts:173 | different numbers are written differently |
| Encoding.AsciiPrefixIs | src/validation/climateValidationHelpers.ts:11-23 | an ASCII-decoded prefix equals a literal exactly when the buffer is long enough and each byte, high bit cleared, has the literal's code |
| Encoding.Hex | src/controllers/uploadController.ts:174 | hex text has two lower-case hex digits per byte |
| Encoding.HexRoundTrip | src/controllers/uploadController.ts:174 | reading the hex text back gives the bytes |
| Encoding.HexInjective | src/controllers/uploadController.ts:174 | different bytes have different hex text |
| Encoding.Utf8Encode | src/utils/header.ts:7 | UTF-8 takes one to four bytes per character |
| Encoding.Utf8EncodeAppend | src/utils/header.ts:7 | UTF-8 encoding distributes over concatenation |
| Encoding.Utf8Ascii | src/utils/header.ts:7 | an ASCII character is the single byte of its code, so the colon is byte 58 |
| Base64.EncodeLength | src/utils/header.ts:7 | Base64 text has four characters per started group of three bytes |
| Base64.DecodeOneByte | src/utils/header.ts:7 | a one-byte final group, padded with `==`, decodes back to its byte |
| Base64.DecodeTwoBytes | src/utils/header.ts:7 | a two-byte final group, padded with `=`, decodes back to its bytes |
| Base64.DecodeBlockThenRest | src/utils/header.ts:7 | a full group followed by correctly encoded text decodes to the group's bytes, then the rest |
| Base64.RoundTrip | src/utils/header.ts:7 | decoding the Base64 text gives back exactly the bytes encoded |
| Headers.CreateBasicAuthHeader | src/utils/header.ts:5-11 | three entries; the JSON content type and accept; the authorization is "Basic " and Base64 text decoding to UTF-8 of user, colon, password |
| Headers.CreateBearerAuthHeader | src/utils/header.ts:13-19 | three entries; the JSON defaults; the authorization is "Bearer " followed by the token unchanged |
| Headers.CreateCustomHeaders | src/utils/header.ts:21-27 | the keys are the defaults' and the caller's; a caller entry wins, and a default survives where the caller has none |
| Headers.DefaultHeadersAreCustom | src/utils/header.ts:29-35 | the default headers are the custom headers built from the User-Agent alone, three entries |
| Headers.CustomHeadersKeepDefaults | src/utils/header.ts:21-27 | a caller without the two JSON keys keeps both defaults and gains exactly two entries |
| FileUtils.FileExtension | src/lib/fileUtils.ts:3-6 | the extension is no longer than the name |
| FileUtils.FileExtensionShape | src/lib/fileUtils.ts:3-6 | empty exactly when the name has no dot; otherwise it starts with its only dot; never upper case |
| FileUtils.FileExtensionSuffix | src/lib/fileUtils.ts:3-6 | the extension is the lower-cased tail of the name |
| FileUtils.FileExtensionIdempotent | src/lib/fileUtils.ts:3-6 | the extension of an extension is itself |
| FileUtils.ExtensionIsSuffix | src/lib/fileUtils.ts:29-31 | for a dot-free lower-case `e`, the extension is `.e` exactly when the name ends in `.e` ignoring case |
| FileUtils.Pow | src/lib/fileUtils.ts:13 | a power of a positive base is positive |
| FileUtils.UnitIndex | src/lib/fileUtils.ts:12 | the unit index `i` satisfies `1024^i <= n < 1024^(i+1)` |
| FileUtils.UnitIndexUnique | src/lib/fileUtils.ts:12 | that `i` is the only such index |
| FileUtils.Hundredths | src/lib/fileUtils.ts:13 | `toFixed(2)` is the nearest number of hundredths |
| FileUtils.HundredthsOfMultiple | src/lib/fileUtils.ts:13 | an exact multiple has a whole number of hundredths |
| FileUtils.FormatWholeUnits | src/lib/fileUtils.ts:8-14 | `m` whole units, 1 <= m < 1024, print as the decimal `m`, a space and the unit name |
| FileUtils.TenMegabytes | src/lib/fileUtils.ts:8-14 | 10 MiB prints as "10 MB" |
| FileUtils.OnlyDotsIsHidden | src/lib/fileUtils.ts:38-41 | a name made only of dots already matches the hidden-file pattern |
| FileUtils.DangerousExtensionIsSuffix | src/lib/fileUtils.ts:16-31 | with dot-free lower-case entries, a dangerous extension is exactly a case-insensitive suffix `.e` |
| FileUtils.DangerousWithinPatterns | src/lib/fileUtils.ts:16-49 | when every dangerous extension belongs to the four pattern families, the name is suspicious exactly when a pattern matches |
| Uploads.Flatten | src/validation/fileValidation.ts:15-16 | `Object.values(...).flat()` holds exactly the files of the field arrays |
| Uploads.FlattenAppend | src/validation/fileValidation.ts:15-16 | flattening distributes over concatenating field lists |
| Uploads.ExtractFilesCases | src/validation/fileValidation.ts:7-23 | the single file counts only when `files` is absent; no upload gives no files; field arrays are flattened |
| Uploads.FieldsAsArray | src/middleware/upload.ts:10-27 | files split across fields give the same list as one array of them |
| Uploads.ErrorMessage | src/services/uploadService.ts:243 | a non-`Error` gives "Unknown error", an `Error` its message |
| MulterConfig.FileFilter | src/middleware/multerConfig.ts:18-26 | accepted exactly when both MIME type and extension are allowed; otherwise the `Error` message names both |
| MulterConfig.RejectionNamesBoth | src/middleware/multerConfig.ts:24 | the rejection text starts with the fixed text, quotes the MIME type next and ends with the extension in parentheses |
| MulterConfig.MulterErrorMessage | src/middleware/multerConfig.ts:40-44 | never empty; the table entry for a known code, the default otherwise |
| MulterConfig.NullishMulterErrorMessage | src/middleware/upload.ts:278-280 | the table entry for a known code, the default otherwise |
| MulterConfig.ErrorMessageCopiesAgree | src/middleware/upload.ts:278-280 | the `??` and `\|\|` copies agree on every code, and every message is a table value or the default |
| MulterConfig.SevenKnownCodes | src/constants/multerErrors.ts:1-9 | the table knows exactly the seven `LIMIT_*` codes, none mapped to the default text |
| MulterConfig.HandleMulterError | src/middleware/multerConfig.ts:46-67 | a `MulterError` gets 400 with its code's message and its own message as the only error; any other error goes to `next` unchanged |
| FileValidation.FileLabel | src/validation/fileValidation.ts:35 | every per-file message starts with "File " |
| FileValidation.AllStartWithAppend | src/validation/fileValidation.ts:73-85 | messages with a common prefix keep it when lists are joined |
| FileValidation.LabelledMessages | src/validation/fileValidation.ts:73-85 | messages labelled with a file start with "File " |
| FileValidation.IndividualErrors | src/validation/fileValidation.ts:25-53 | each error is labelled with the file's 1-based position and name |
| FileValidation.IndividualErrorsCount | src/validation/fileValidation.ts:25-53 | no error exactly when size, MIME type and extension pass; one error per failed check |
| FileValidation.FileWarnings | src/validation/fileValidation.ts:78-84 | each warning is labelled with the file |
| FileValidation.FileWarningsCount | src/validation/fileValidation.ts:78-84 | no warning exactly when the name is not suspicious and the file is not empty; one per condition |
| FileValidation.AllFilesErrors | src/validation/fileValidation.ts:67-86 | every per-file error starts with "File " |
| FileValidation.AllFilesErrorsEmpty | src/validation/fileValidation.ts:67-86 | no per-file error at all exactly when every file is acceptable |
| FileValidation.AllFilesWarningsEmpty | src/validation/fileValidation.ts:67-86 | no warning at all exactly when no file has a warning of its own |
| FileValidation.FileValidationOf | src/validation/fileValidation.ts:88-110 | valid exactly when there is no error; no file gives only "No valid files provided"; too many files puts the count error first |
| FileValidation.ValidIffAdmissible | src/validation/fileValidation.ts:88-110 | valid exactly when there is a file, no more than allowed, and each one is acceptable |
| FileValidation.CountErrorOnlyWhenTooMany | src/validation/fileValidation.ts:55-65 | the count error is present exactly when there are more files than allowed |
| FileValidation.WarningsNeverInvalidate | src/validation/fileValidation.ts:88-110 | errors and validity do not depend on the suspicious-name test |
| FileValidation.CopiesAgree | src/middleware/upload.ts:171-223 | with dangerous extensions inside the pattern families, the two `validateFiles` copies return the same result |
| FileValidation.WarningCopiesAgree | src/middleware/upload.ts:145-166 | under the same condition the two copies produce the same warnings |
| FileValidation.FilterAcceptedPassesTypeChecks | src/middleware/upload.ts:246-258 | a file the Multer filter accepted can fail only the size check |
| FileValidation.PrefixStep | src/validation/fileValidation.ts:73-85 | one more iteration appends exactly that file's errors and warnings |
| FileValidation.MessageLists.constructor | src/validation/fileValidation.ts:92-93 | both lists start empty |
| FileValidation.ValidateFileCount | src/validation/fileValidation.ts:55-65 | appends the count error when there are too many files, warnings untouched |
| FileValidation.ValidateAllFiles | src/validation/fileValidation.ts:67-86 | appends every file's errors and warnings in file order |
| FileValidation.ValidateFiles | src/validation/fileValidation.ts:88-110 | the result equals `FileValidationOf`, so the lemmas above hold for it |
| FileValidation.FailureReply | src/validation/fileValidation.ts:112-129 | 400, not successful, "File validation failed", with the errors and the warnings |
| FileValidation.ValidateFile | src/middleware/upload.ts:64-89 | no upload is answered at once; `next()` exactly when the files are admissible; otherwise the failure reply; never `next(error)` |
| ClimateTypes.Findings.constructor | src/validation/climateValidation.ts:188-189 | both lists start empty |
| ClimateTypes.Findings.AddError | src/validation/climateValidationHelpers.ts:14-19 | appends one error and leaves the warnings |
| ClimateTypes.Findings.AddWarning | src/validation/climateValidationHelpers.ts:65-70 | appends one warning and leaves the errors |
| ClimateHelpers.PdfHeaderBytes | src/validation/climateValidationHelpers.ts:11-23 | the header test holds exactly for four bytes reading "%PDF" with the high bit cleared |
| ClimateHelpers.ZipHeaderBytes | src/validation/climateValidationHelpers.ts:107-117 | the ZIP test holds exactly for two bytes reading "PK" with the high bit cleared |
| ClimateHelpers.EncryptScanStopsAt1024 | src/validation/climateValidationHelpers.ts:28-41 | bytes after the first 1024 never decide encryption |
| ClimateHelpers.CheckPdfHeader | src/validation/climateValidationHelpers.ts:11-23 | returns whether the header is good and records the format error only when it is not |
| ClimateHelpers.CheckPdfPasswordProtection | src/validation/climateValidationHelpers.ts:28-41 | records the password error exactly when "/Encrypt" is in the first kilobyte |
| ClimateHelpers.DataLineIffTrimmedNonEmpty | src/validation/climateValidationHelpers.ts:52 | a line counts exactly when its trimmed length is positive |
| ClimateHelpers.DataLinesFilter | src/validation/climateValidationHelpers.ts:52 | the filter keeps only data lines of the input, and none exactly when all are blank |
| ClimateHelpers.JoinAllWhitespace | src/validation/climateValidationHelpers.ts:46-72 | joining with a whitespace separator is all whitespace exactly when every piece is |
| ClimateHelpers.CsvEmptyIffBlank | src/validation/climateValidationHelpers.ts:46-72 | a CSV has no data line exactly when the whole text is whitespace |
| ClimateHelpers.CheckCsvContent | src/validation/climateValidationHelpers.ts:46-72 | no data line is an error; exactly one is a warning |
| ClimateHelpers.CheckTxtContent | src/validation/climateValidationHelpers.ts:77-102 | empty text is an error; a length under 50 units is a warning |
| ClimateHelpers.CheckDocxHeader | src/validation/climateValidationHelpers.ts:107-117 | records the DOCX format error exactly when the ZIP test fails |
| ClimateHelpers.CheckXlsxHeader | src/validation/climateValidationHelpers.ts:122-132 | records the XLSX format error exactly when the ZIP test fails |
| ClimateHelpers.FileTypeFromExtension | src/validation/climateValidationHelpers.ts:145-157 | a kind other than `txt` comes only from that kind's dotted extension |
| ClimateHelpers.FileTypeOfDottedExtension | src/validation/climateValidationHelpers.ts:145-157 | each kind's dotted extension maps back to it |
| ClimateHelpers.UndottedIsTxt | src/validation/climateValidationHelpers.ts:162-166 | an extension without a leading dot, "pdf" included, maps to `txt` |
| ClimateHelpers.SupportedIffKindName | src/validation/climateValidationHelpers.ts:171-173 | the supported names are exactly the five kinds' names |
| ClimateHelpers.MaxSizeForFileType | src/validation/climateValidationHelpers.ts:178-191 | throws exactly when a section is missing; otherwise the section's positive limit, or 10 MiB for 0 |
| ClimateHelpers.EndsWithExtensionFromAppend | src/validation/climateValidationHelpers.ts:205-213 | a suffix from either list is a suffix from their concatenation |
| ClimateHelpers.ExecutablesArePlain | src/validation/climateValidationHelpers.ts:205-213 | the executable suffixes are dot-free and lower case |
| ClimateHelpers.ShellScriptsArePlain | src/validation/climateValidationHelpers.ts:205-213 | the shell-script suffixes are dot-free and lower case |
| ClimateHelpers.SourceCodeIsPlain | src/validation/climateValidationHelpers.ts:205-213 | the source-code suffixes are dot-free and lower case |
| ClimateHelpers.ClimateSuspiciousByExtension | src/validation/climateValidationHelpers.ts:205-213 | suspicious by extension exactly when `getFileExtension` is a listed one |
| ClimateHelpers.ClimateSuspiciousIgnoresCase | src/validation/climateValidationHelpers.ts:196-232 | a name and its lower-cased form are equally suspicious |
| ClimateUtils.KindOfNonTxt | src/middleware/climateValidationUtils.ts:44-55 | a kind other than `txt` needs that kind's extension, in any case |
| ClimateUtils.ExtractBasicMetadata | src/middleware/climateValidationUtils.ts:44-55 | the metadata copies name, size and MIME type and maps the extension to a kind |
| ClimateUtils.EveryKindSupported | src/middleware/climateValidationUtils.ts:60-78 | every kind the map produces is supported |
| ClimateUtils.ValidateFileType | src/middleware/climateValidationUtils.ts:60-78 | a supported mapped kind is returned with no error; an unsupported one gives no kind and one UNSUPPORTED_FILE_TYPE error; warnings untouched |
| ClimateUtils.ValidateFileSize | src/middleware/climateValidationUtils.ts:83-98 | throws exactly when the configuration is incomplete; otherwise FILE_TOO_LARGE exactly above the limit |
| ClimateUtils.CheckSuspiciousFile | src/middleware/climateValidationUtils.ts:103-115 | one SUSPICIOUS_FILE warning exactly for a suspicious name, never an error |
| ClimateValidators.ValidationFailure | src/validation/climateValidationValidators.ts:25-31 | the code is the kind in upper case plus `_VALIDATION_ERROR`, and the message ends with the thrown text |
| ClimateValidators.ValidatePdfBasicStructure | src/validation/climateValidationValidators.ts:14-33 | appends the PDF errors, no warnings |
| ClimateValidators.ValidateCsvBasicStructure | src/validation/climateValidationValidators.ts:38-54 | appends the CSV errors and warnings |
| ClimateValidators.ValidateTxtBasicStructure | src/validation/climateValidationValidators.ts:59-75 | appends the TXT errors and warnings |
| ClimateValidators.ValidateDocxBasicStructure | src/validation/climateValidationValidators.ts:80-96 | appends the DOCX errors, no warnings |
| ClimateValidators.ValidateXlsxBasicStructure | src/validation/climateValidationValidators.ts:101-117 | appends the XLSX errors, no warnings |
| ClimateValidators.RunValidator | src/validation/climateValidation.ts:237-249 | calling the kind's validator appends that kind's findings |
| ClimateValidators.AtMostOneFinding | src/validation/climateValidationValidators.ts:14-117 | a validator adds at most one finding; a missing buffer gives exactly the kind's validation error |
| ClimateValidators.PdfFindings | src/validation/climateValidationValidators.ts:14-33 | a bad header gives only the format error; a good header with "/Encrypt" only the password error |
| ClimateValidators.CsvEmptyIffWhitespace | src/validation/climateValidationValidators.ts:38-54 | a CSV is reported empty exactly when its decoded text is whitespace |
| ClimateValidation.ValidatorFor | src/validation/climateValidation.ts:237-249 | a validator exists exactly for a supported name, and it is that kind's |
| ClimateValidation.LastSegment | src/validation/climateValidation.ts:259 | the segment after the last dot holds no dot |
| ClimateValidation.EveryFileGetsTxtCheck | src/validation/climateValidation.ts:254-265 | with the maps read by their literal keys, every file is checked as `txt` |
| ClimateValidation.ValidateBasicFileStructure | src/validation/climateValidation.ts:254-265 | appends the TXT validator's findings |
| ClimateValidation.ValidateFileTypeAndSize | src/validation/climateValidation.ts:211-223 | throws exactly when the size lookup throws; otherwise appends the type and size errors and the suspicion warning |
| ClimateValidation.ValidateClimateFile | src/validation/climateValidation.ts:184-206 | the result is the checks' findings on fresh lists, valid when there is no error |
| ClimateValidation.TypeAndSizeWhenComplete | src/validation/climateValidation.ts:211-223 | with a complete configuration, at most the size error |
| ClimateValidation.ClimateFileFindings | src/validation/climateValidation.ts:184-206 | with a complete configuration, a file's errors and warnings spelled out |
| ClimateValidation.ClimateFileThrows | src/validation/climateValidation.ts:184-206 | validating a file throws exactly when a section is missing |
| ClimateValidation.ClimateFileValidity | src/validation/climateValidation.ts:184-206 | valid exactly when within the size limit and the bytes decode to non-empty text |
| ClimateValidation.TxtCodes | src/validation/climateValidationValidators.ts:59-75 | the TXT validator records only its validation error, EMPTY_TXT or TXT_TOO_SHORT |
| ClimateValidation.ClimateFileCodes | src/validation/climateValidation.ts:184-265 | a file can get only FILE_TOO_LARGE, the TXT errors, SUSPICIOUS_FILE or TXT_TOO_SHORT |
| ClimateValidation.ValidateAllFiles | src/validation/climateValidation.ts:34-46 | validates the files in order and stops at the first throw |
| ClimateValidation.NoneStaysNone | src/validation/climateValidation.ts:34-46 | once a prefix throws, every longer prefix throws |
| ClimateValidation.AllFileResultsShape | src/validation/climateValidation.ts:34-46 | throws exactly when there is a file and a missing section; otherwise one result per file, in order |
| ClimateValidation.FlattenedFindings | src/validation/climateValidation.ts:123-152 | some result is invalid exactly when the flattened errors are non-empty; likewise for warnings |
| ClimateValidation.ValidateClimateDocument | src/validation/climateValidation.ts:157-179 | the middleware's outcome for a request |
| ClimateValidation.ClimateDocumentDecisions | src/validation/climateValidation.ts:88-179 | no upload gives 400; a missing section with a file gives 500; otherwise 400 with `success: false` exactly when some file has an error, else `next()` with the results |
| UploadService.ValidateFileInput | src/services/uploadService.ts:75-91 | no upload gives "No file provided"; an upload with no file gives "No valid files provided"; otherwise the files in order |
| UploadService.AdmissionIgnoresSingleFile | src/services/uploadService.ts:41-50 | with `files` present the single `file` plays no part |
| UploadService.CountsBelowSuccesses | src/services/uploadService.ts:96-100 | processed plus skipped never exceeds the successes |
| UploadService.SuccessesAndFailuresAddUp | src/services/uploadService.ts:163-164 | successes plus failures is the number of results |
| UploadService.BuildSuccessMessage | src/services/uploadService.ts:105-115 | both counts positive gives the mixed message; only processed the plain one; otherwise the skipped one |
| UploadService.MixedMessageShape | src/services/uploadService.ts:127-129 | the mixed message is the common prefix then a digit |
| UploadService.SuccessMessagesDistinct | src/services/uploadService.ts:105-142 | the three success messages differ, and none is the partial-failure text |
| UploadService.BuildUploadResponse | src/services/uploadService.ts:134-142 | all successful exactly when every result succeeded; 200 exactly then, else 207; the partial-failure message otherwise; the counts |
| UploadService.SendUploadResponse | src/services/uploadService.ts:147-169 | successes and failures add up to the results; the data's fields carried over |
| UploadService.AllSuccessfulMeansNoFailure | src/services/uploadService.ts:134-169 | an all-successful response has no failures |
| UploadService.AllSkippedResponse | src/services/uploadService.ts:96-142 | every file skipped gives 200, the skipped message, all skipped, none processed |
| UploadService.HandlersAgree | src/services/uploadService.ts:174-245 | the three per-file builders keep id, name and size; success exactly for `completed` or `skipped`; a failure carries exactly one error |
| UploadService.ServiceFailureMessage | src/services/uploadService.ts:298-300 | never empty; the service's own message when it has one |
| UploadService.MakePythonServiceRequest | src/services/uploadService.ts:276-303 | a rejection propagates; a non-2xx status throws quoting it; an unreadable body propagates; `success: false` throws its message; only success returns |
| UploadService.StatusMessageQuotesStatus | src/services/uploadService.ts:292-294 | the status error quotes the status code and text |
| UploadController.ForwardToPythonService | src/controllers/uploadController.ts:118-134 | a returned answer passes through; an `AbortError` becomes the timeout error; any other error is rethrown unchanged |
| UploadController.ForwardNeverThrowsAbort | src/controllers/uploadController.ts:118-134 | forwarding never throws an `AbortError`, and returns exactly when the request returns |
| UploadController.ProcessFile | src/controllers/uploadController.ts:88-113 | an id failure escapes; no service URL skips; a returned forward completes; a thrown one fails with the id kept |
| UploadController.ResultShape | src/controllers/uploadController.ts:38-64 | every result names its file and size; success exactly for `completed`/`skipped`; only the fallback lacks id and status; a failure has one error |
| UploadController.NotConfiguredSkips | src/controllers/uploadController.ts:96-104 | with no service URL a file with an id is skipped successfully, whatever the service would do |
| UploadController.TimeoutFailsFile | src/controllers/uploadController.ts:127-131 | a timed-out call fails the file with the timeout message, keeping its id |
| UploadController.ProcessFiles | src/controllers/uploadController.ts:24-33 | one result per file, in order, each from that file's own attempt |
| UploadController.UploadFile | src/controllers/uploadController.ts:66-83 | a refusal exactly when admission refuses; otherwise one result per file, successes plus failures equal the files, 200 exactly when all succeeded |
| UploadController.FileIdShape | src/controllers/uploadController.ts:172-176 | an id has exactly one dash, base-36 digits before it and two hex digits per random byte after it |
| UploadController.FileIdInjective | src/controllers/uploadController.ts:172-176 | different clock readings or random bytes give different ids |
| UploadController.GetUploadStatus | src/controllers/uploadController.ts:139-167 | a missing or empty id gives 400; any other id is reported `completed` |
| QuestionController.QuestionIdInjective | src/controllers/questionController.ts:52 | different numbers give different ids `q{n}` |
| QuestionController.SequentialIdsDistinct | src/controllers/questionController.ts:52 | under the catalog's numbering no two questions share an id |
| QuestionController.ValidateQuestionInput | src/controllers/questionController.ts:41-46 | accepted exactly when the input is a string with a non-whitespace character; otherwise the fixed message |
| QuestionController.HelpTextOf | src/controllers/questionController.ts:53 | a non-blank string gives its trimmed text; absent, null or blank gives the default; another value throws |
| QuestionController.CreateNewQuestion | src/controllers/questionController.ts:51-63 | id `q{count+1}`, fixed category and subcategory, not required, the help text; the text is trimmed |
| QuestionController.CreatedQuestionIsTrimmed | src/controllers/questionController.ts:57 | the stored text is already trimmed |
| QuestionController.FindQuestionById | src/controllers/questionController.ts:22-24 | none exactly when no question has the id; otherwise a listed question with it |
| QuestionController.FindQuestionFirst | src/controllers/questionController.ts:22-24 | the question found is the first with the id |
| QuestionController.SequentialLookup | src/controllers/questionController.ts:22-24 | under the catalog's numbering, `q{k}` finds the k-th question |
| QuestionController.CombineQuestionWithAnswer | src/controllers/questionController.ts:9-17 | answer and explanation are never empty; no matching answer gives the default and no citations; the help text or its default |
| QuestionController.CombineUsesFirstAnswer | src/controllers/questionController.ts:10-14 | the first matching answer gives the answer, or its default when empty, and its citations |
| QuestionController.GetQuestions | src/controllers/questionController.ts:68-78 | one combined record per question, in order, and their count |
| QuestionController.HandleQuestionNotFound | src/controllers/questionController.ts:29-36 | 404 "Question not found" with a message ending in the id |
| QuestionController.GetQuestionById | src/controllers/questionController.ts:92-108 | 404 exactly when no question has the id; otherwise a matching question, combined |
| QuestionController.SequentialAppend | src/controllers/questionController.ts:136-139 | appending the next-numbered question keeps the numbering |
| QuestionController.QuestionCatalog.constructor | src/controllers/questionController.ts:3 | the catalog starts from the seed questions and answers |
| QuestionController.QuestionCatalog.SubmitQuestion | src/controllers/questionController.ts:122-152 | invalid input gives 400 and a throw gives 500, the list unchanged; otherwise exactly the new question is appended; the numbering is kept |
| QuestionController.SubmittedIsFound | src/controllers/questionController.ts:136-139 | a submitted question is found by its id |
| Seqs.Filter | src/utils/dataUtils.ts:34 | a filter is never longer than its input |
| Seqs.FilterMembers | src/utils/dataUtils.ts:34 | the filter keeps exactly the elements satisfying the predicate |
| Seqs.FilterMultiset | src/utils/dataUtils.ts:34 | the filter keeps each satisfying element as often as it occurs, and no other |
| Seqs.FilterIsSubsequence | src/utils/dataUtils.ts:34 | the filter keeps the input's order |
| Seqs.FilterAll | src/services/uploadService.ts:98 | a predicate true everywhere keeps everything |
| Seqs.FilterNone | src/services/uploadService.ts:97 | a predicate false everywhere keeps nothing |
| Seqs.FilterExtensional | src/utils/dataUtils.ts:51-73 | predicates agreeing on every element filter the same |
| Seqs.FilterSplit | src/services/uploadService.ts:163-164 | kept and dropped elements together are the input |
| Seqs.FilterAppend | src/utils/dataUtils.ts:34 | filtering distributes over concatenation |
| Seqs.FilterIdempotent | src/utils/dataUtils.ts:34 | filtering twice is filtering once |
| Seqs.Find | src/utils/dataUtils.ts:13 | none exactly when no element satisfies the predicate; otherwise a satisfying element of the input |
| Seqs.FindFirst | src/utils/dataUtils.ts:13 | `find` returns the element at the first satisfying position |
| Seqs.Map | src/controllers/questionController.ts:70 | `map` keeps the length and applies the function at every position |
| Seqs.SumAppend | src/utils/dataUtils.ts:97 | the sum over two pieces is the sum of the two sums |
| Seqs.SumOverFilter | src/utils/dataUtils.ts:76-78 | dropping elements on which the summand is zero leaves the sum unchanged |
| Seqs.SumNonNegative | src/utils/dataUtils.ts:97 | a sum of non-negative terms is non-negative |
| DataUtils.GetDocumentUploadById | src/utils/dataUtils.ts:9-14 | none exactly when no document has the id; otherwise a listed document with it |
| DataUtils.DocumentLookupFirst | src/utils/dataUtils.ts:9-14 | the document found is the first with the id |
| DataUtils.GetProcessingRequestById | src/utils/dataUtils.ts:16-21 | none exactly when no request has the id; otherwise a listed request with it |
| DataUtils.RequestLookupFirst | src/utils/dataUtils.ts:16-21 | the request found is the first with the id |
| DataUtils.GetProcessingStatusById | src/utils/dataUtils.ts:23-28 | none exactly when no status has the request id; otherwise a listed status for it |
| DataUtils.StatusLookupFirst | src/utils/dataUtils.ts:23-28 | the status found is the first for the request |
| DataUtils.GetDocumentsByStatus | src/utils/dataUtils.ts:30-35 | exactly the documents with that status, each as often as it occurs, in their order |
| DataUtils.GetProcessingRequestsByStatus | src/utils/dataUtils.ts:37-42 | exactly the requests with that status, each as often as it occurs, in their order |
| DataUtils.GetProcessingRequestsByOrganization | src/utils/dataUtils.ts:44-49 | exactly the requests of that organization, each as often as it occurs, in their order |
| DataUtils.GetDocumentsByFileType | src/utils/dataUtils.ts:89-94 | exactly the documents of that file type, each as often as it occurs, in their order |
| DataUtils.GetCompletedRequests | src/utils/dataUtils.ts:51-55 | equals the status filter with `completed` |
| DataUtils.GetPendingRequests | src/utils/dataUtils.ts:57-61 | equals the status filter with `pending` |
| DataUtils.GetProcessingRequests | src/utils/dataUtils.ts:63-67 | equals the status filter with `processing` |
| DataUtils.GetFailedRequests | src/utils/dataUtils.ts:69-73 | equals the status filter with `failed` |
| DataUtils.TimedRequests | src/utils/dataUtils.ts:77 | exactly the requests with a non-zero processing time, each as often as it occurs, in their order |
| DataUtils.GetTotalProcessingTime | src/utils/dataUtils.ts:75-79 | equals the sum of every request's time, absent ones counted as zero |
| DataUtils.GetAverageProcessingTime | src/utils/dataUtils.ts:81-87 | zero with no timed request; otherwise times the count it gives the total |
| DataUtils.ProcessingTimesNonNegative | src/utils/dataUtils.ts:75-87 | with no negative time, total and average are non-negative |
| DataUtils.GetTotalFileSize | src/utils/dataUtils.ts:96-98 | the total is non-negative and at least every single size |
| DataUtils.SizeBoundsTotal | src/utils/dataUtils.ts:96-98 | every size is at most the total |
| DataUtils.GetAverageFileSize | src/utils/dataUtils.ts:100-103 | zero for no documents; otherwise times the count it gives the total; never negative |
| DataUtils.TotalFileSizeAppend | src/utils/dataUtils.ts:96-98 | the total over two lists is the sum of their totals |

## Left out

- Logging, timestamps (`uploadedAt`, `submittedAt`, `uploadTimestamp`) and `processingTime` measurement are not modelled. None of them affects a decision.
- `fetch`, `FormData`, `Blob`, `AbortController` and `setTimeout` (src/services/uploadService.ts:250-271, `createFormDataAndController`) are abstracted. Each file's call is an input `FetchResult`: a rejection, or a response with its status and body.
- `Date.now()` and `randomBytes(8)` in `generateFileId` are inputs. So is their failure: a thrown id generation is modelled and escapes `processFile`.
- `Buffer.toString('utf8')` is a function parameter `utf8`. UTF-8 decoding and its replacement characters are not modelled.
- UploadController.UploadFile: the outer `catch` that answers 500 (src/controllers/uploadController.ts:76-82) is not modelled. Every per-file error is caught inside the loop, so no modelled input reaches it.
- `processFilesArray` (src/services/uploadService.ts:33-36) is called by nothing in the core and is not modelled.
- `createMulterConfig`'s memory storage and its `limits` are left out. Multer's own enforcement of them is library behaviour; it reaches the model only as a `MulterError` code.
- The filtering of `undefined` entries out of the file list is left out. The model's lists hold only files.
- `Object.values` order over field arrays is taken as given (the order of `FieldArrays`).
- Inherited object keys are not modelled in any lookup table: the Multer message table, `extensionMap` (src/validation/climateValidationHelpers.ts:148-156) or `validationMap` (src/validation/climateValidation.ts:238-248). In the source, a name whose lower-cased last segment is `constructor` or `__proto__` makes `extensionMap[...] || 'txt'` return an inherited `Object` value. Then `validationMap` finds no validator, and no structure check runs (climateValidation.ts:262-264). For example, "report.constructor" with an empty buffer is valid in the source but gets EMPTY_TXT in the model.
- ClimateValidation.EveryFileGetsTxtCheck: holds for the literal-key maps only. It does not cover the inherited-key names above, for which the source skips the structure check.
- Text.Lower: lower-cases ASCII letters only. JavaScript's `toLowerCase` applies full Unicode case mapping. For example, U+212A (Kelvin sign) becomes `k`, so the source flags "\u212AEYLOGGER.txt" as suspicious and the model does not. Also, U+0130 becomes two UTF-16 units, and final sigma depends on its context.
- Text.LowerAt: character-by-character lower-casing is a property of the ASCII-only model. It fails for JavaScript's U+0130 expansion and final sigma.
- Text.LowerFacts: "keeps the length" and "dots stay where they were" hold for the ASCII-only model. They fail in JavaScript when U+0130 expands to two units.
- Text.LowerSuffix: commuting with a suffix holds for the ASCII-only model. It fails in JavaScript for final sigma.
- FileUtils.FileExtension: "no longer than the name" holds for the ASCII-only model. In JavaScript, ".\u0130" lower-cases to three units.
- ClimateHelpers.ClimateSuspiciousIgnoresCase: stated for the ASCII-only lower-casing. Suspicious names spelled with non-ASCII characters that lower-case to ASCII (U+212A) are not flagged by the model.
- FileUtils.FormatBytes: `Math.log`, `toFixed` and `parseFloat` are computed exactly on integers. Floating-point rounding next to a power of 1024 and exponent notation are not modelled.
- `DANGEROUS_EXTENSIONS` (src/constants/fileTypes.ts) is not part of this model; it is a parameter of `IsSuspiciousFileName`.
- src/config/index.ts declares no upload or climate-validation settings. Configuration is an explicit immutable parameter everywhere.
- The climate middleware's `try`/`catch` is modelled as an outcome for the one reachable throw: the size lookup with a missing section. A missing buffer is handled inside the validators, as the source does.
- ClimateHelpers.IsDataLine is defined as "not all whitespace". `DataLineIffTrimmedNonEmpty` proves it equal to the source's `line.trim().length > 0`.
- The 500 branches of `getQuestions` and `getQuestionById` (src/controllers/questionController.ts:79-86, 109-116) are not modelled, since nothing in their `try` blocks can throw. For `submitQuestion` the reachable throw is modelled: an `explanation` that is not a string, null or absent. Its reply is `SubmitFailed`, without the engine's wording of the `TypeError`.
- QuestionController: the seed data (src/data/Demodata.ts) is an input to the catalog. Its ids `q1`…`q35` follow the catalog's numbering, but the model does not copy the records.
- DataUtils: processing times are whole numbers. `NaN` and fractional milliseconds are not modelled. Averages are exact real quotients, not floating-point divisions.
- DataUtils: the record types keep only the fields the helpers read.
- The other Express wiring (routes, CORS, rate limiting, Swagger, the health controller and the logger) is outside the core and not modelled.
