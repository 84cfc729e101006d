/**
 * The data the upload pipeline works on: the files Multer leaves on a
 * request, the upload configuration, the per-file results and the way a
 * handler ends (a response written, or control passed on).
 */
module Uploads {
  import opened Maybe
  import opened Encoding

  /**
   * `Express.Multer.File` under memory storage. `buffer` is `None` for a file
   * object that carries no bytes, which makes every read of it throw.
   */
  datatype UploadedFile = UploadedFile(
    originalName: string, mimeType: string, size: nat, buffer: Option<seq<byte>>)

  /**
   * `req.files`: absent, an array (`upload.array`) or an object from field
   * name to array (`upload.fields`), the latter given by its arrays in
   * `Object.values` order. An empty array or object is still present.
   */
  datatype FilesField =
    | NoFiles
    | FileArray(files: seq<UploadedFile>)
    | FieldArrays(fields: seq<seq<UploadedFile>>)

  /** What Multer leaves on the request: `req.file` and `req.files`. */
  datatype UploadRequest = UploadRequest(file: Option<UploadedFile>, files: FilesField)

  /** `req.file || req.files`. */
  predicate HasUpload(req: UploadRequest) {
    req.file.Some? || !req.files.NoFiles?
  }

  /** `Object.values(fields).flat()`: the field arrays one after another. */
  function Flatten(fields: seq<seq<UploadedFile>>): (r: seq<UploadedFile>)
    ensures forall f :: f in r <==> exists i :: 0 <= i < |fields| && f in fields[i]
    decreases |fields|
  {
    if fields == [] then []
    else
      var rest := Flatten(fields[1..]);
      assert forall i :: 0 <= i < |fields[1..]| ==> fields[1..][i] == fields[i + 1];
      fields[0] + rest
  }

  /** Flattening distributes over putting two field lists together. */
  lemma {:induction false} FlattenAppend(a: seq<seq<UploadedFile>>, b: seq<seq<UploadedFile>>)
    ensures Flatten(a + b) == Flatten(a) + Flatten(b)
    decreases |a|
  {
    if a != [] {
      assert (a + b)[1..] == a[1..] + b;
      FlattenAppend(a[1..], b);
    } else {
      assert a + b == b;
    }
  }

  /**
   * `extractFilesFromRequest` (four copies) and `getFilesToProcess`: the
   * `files` array as it is, the field arrays flattened, or else the single
   * file if there is one.
   */
  function ExtractFiles(req: UploadRequest): seq<UploadedFile> {
    match req.files
    case FileArray(files) => files
    case FieldArrays(fields) => Flatten(fields)
    case NoFiles => if req.file.Some? then [req.file.value] else []
  }

  /**
   * The single file is consulted only when `files` is absent; the result is
   * empty only when there is no upload at all or the `files` present hold no
   * file.
   */
  lemma ExtractFilesCases(req: UploadRequest)
    ensures !req.files.NoFiles? ==> ExtractFiles(req) == ExtractFiles(UploadRequest(None, req.files))
    ensures req.files.NoFiles? && req.file.Some? ==> ExtractFiles(req) == [req.file.value]
    ensures !HasUpload(req) ==> ExtractFiles(req) == []
    ensures req.files.FieldArrays? ==>
      forall f :: f in ExtractFiles(req) <==>
        exists i :: 0 <= i < |req.files.fields| && f in req.files.fields[i]
  {
  }

  /** Splitting the same files into fields or sending them as one array gives the same list. */
  lemma {:induction false} FieldsAsArray(fields: seq<seq<UploadedFile>>, file: Option<UploadedFile>)
    ensures ExtractFiles(UploadRequest(file, FieldArrays(fields)))
         == ExtractFiles(UploadRequest(None, FileArray(Flatten(fields))))
    ensures |fields| == 1 ==> ExtractFiles(UploadRequest(file, FieldArrays(fields))) == fields[0]
  {
    if |fields| == 1 {
      assert Flatten(fields[1..]) == [];
      assert fields[0] + [] == fields[0];
    }
  }

  /** `FileUploadConfig`: the fields the upload checks read. */
  datatype FileUploadConfig = FileUploadConfig(
    maxFileSize: nat,
    allowedMimeTypes: seq<string>,
    allowedExtensions: seq<string>,
    maxFiles: nat,
    pythonServiceUrl: Option<string>)

  /** `!config.fileUpload.pythonServiceUrl` is false: a URL is set and is not empty. */
  predicate ServiceConfigured(config: FileUploadConfig) {
    config.pythonServiceUrl.Some? && config.pythonServiceUrl.value != ""
  }

  /** `FileValidationResult`. */
  datatype FileValidationResult = FileValidationResult(
    isValid: bool, errors: seq<string>, warnings: seq<string>)

  datatype ProcessingStatus = Pending | Processing | Completed | Failed | Skipped

  /** `UploadResponse`: the result for one file; optional fields are `None` when not set. */
  datatype UploadResponse = UploadResponse(
    success: bool,
    message: string,
    fileId: Option<string>,
    fileName: Option<string>,
    fileSize: Option<nat>,
    processingStatus: Option<ProcessingStatus>,
    errors: Option<seq<string>>)

  /**
   * A thrown value: an `Error` with its name and message, a `MulterError`
   * (an `Error` subclass carrying a code) or a value that is not an `Error`.
   */
  datatype Thrown =
    | JsError(name: string, message: string)
    | MulterError(code: string, message: string)
    | NonError

  /** `error instanceof Error ? error.message : 'Unknown error'`. */
  function ErrorMessage(e: Thrown): (m: string)
    ensures e.NonError? ==> m == "Unknown error"
    ensures !e.NonError? ==> m == e.message
  {
    if e.NonError? then "Unknown error" else e.message
  }

  /** A JSON body `{ success, message, errors, warnings? }` with its HTTP status. */
  datatype Reply = Reply(
    status: nat, success: bool, message: string, errors: seq<string>, warnings: Option<seq<string>>)

  /** The answer to a request without `file` and without `files` (`sendNoFileError` and its copies). */
  function NoFileReply(): Reply {
    Reply(400, false, "No file provided", ["File is required"], None)
  }

  /**
   * The outcome of a call that may throw: the value it returns, or the value
   * it throws.
   */
  datatype Attempt<T> = Returned(value: T) | Threw(error: Thrown)

  /** How a middleware or handler ends: a response, `next()`, or `next(error)`. */
  datatype Outcome = Respond(reply: Reply) | Next | NextWithError(error: Thrown)
}
