/**
 * The upload controller (src/controllers/uploadController.ts): the
 * sequential per-file loop with failure isolation, the mapping of a timed-out
 * call, the shape of generated file ids, the upload handler and the status
 * endpoint. The clock, the random bytes and the network are inputs: for each
 * file, what id generation and the call to the processing service did.
 */
module UploadController {
  import opened Maybe
  import opened Text
  import opened Encoding
  import opened Seqs
  import opened Uploads
  import opened UploadService

  const TimeoutMessage: string := "File processing timeout"

  /** `error instanceof Error && error.name === 'AbortError'`: the call's timer fired. */
  predicate IsAbort(error: Thrown) {
    error.JsError? && error.name == "AbortError"
  }

  /**
   * `forwardToPythonService`: the request's result, except that an
   * `AbortError` (the timer fired) becomes a plain `Error` saying the
   * processing timed out; any other error is rethrown as it is.
   */
  function ForwardToPythonService(fetch: FetchResult): (r: Attempt<PythonServiceResponse>)
    ensures MakePythonServiceRequest(fetch).Returned? ==> r == MakePythonServiceRequest(fetch)
    ensures var m := MakePythonServiceRequest(fetch);
      m.Threw? && IsAbort(m.error) ==> r == Threw(JsError("Error", TimeoutMessage))
    ensures var m := MakePythonServiceRequest(fetch);
      m.Threw? && !IsAbort(m.error) ==> r == m
  {
    match MakePythonServiceRequest(fetch)
    case Returned(response) => Returned(response)
    case Threw(error) =>
      if IsAbort(error) then Threw(JsError("Error", TimeoutMessage))
      else Threw(error)
  }

  /** An abort never leaves the forwarding step: what it throws is never an `AbortError`. */
  lemma ForwardNeverThrowsAbort(fetch: FetchResult)
    ensures var r := ForwardToPythonService(fetch);
      r.Threw? ==> !IsAbort(r.error)
    ensures ForwardToPythonService(fetch).Returned? <==> MakePythonServiceRequest(fetch).Returned?
  {
  }

  /** What the environment did for one file: id generation, then the call to the service. */
  datatype FileAttempt = FileAttempt(fileId: Attempt<string>, fetch: FetchResult)

  /**
   * `processFile`: id generation sits outside the `try`, so its failure
   * escapes; with no service URL the file is skipped; a successful forward
   * completes it; any error from the forward becomes a failed result that
   * still carries the id.
   */
  function ProcessFile(file: UploadedFile, config: FileUploadConfig, attempt: FileAttempt)
    : (r: Attempt<UploadResponse>)
    ensures attempt.fileId.Threw? <==> r.Threw?
    ensures r.Threw? ==> r.error == attempt.fileId.error
    ensures r.Returned? && !ServiceConfigured(config) ==>
      r.value == HandleNotConfigured(file, attempt.fileId.value)
    ensures r.Returned? && ServiceConfigured(config) ==>
      match ForwardToPythonService(attempt.fetch)
      case Returned(_) => r.value == HandleSuccessfulProcessing(file, attempt.fileId.value)
      case Threw(e) => r.value == HandleProcessingError(file, attempt.fileId.value, e)
  {
    match attempt.fileId
    case Threw(error) => Threw(error)
    case Returned(fileId) =>
      if !ServiceConfigured(config) then Returned(HandleNotConfigured(file, fileId))
      else
        match ForwardToPythonService(attempt.fetch)
        case Returned(_) => Returned(HandleSuccessfulProcessing(file, fileId))
        case Threw(error) => Returned(HandleProcessingError(file, fileId, error))
  }

  /** `handleFileProcessingError`: the fallback result, with neither id nor processing status. */
  function HandleFileProcessingError(file: UploadedFile, error: Thrown): UploadResponse {
    UploadResponse(false, "Failed to process file: " + file.originalName, None,
      Some(file.originalName), Some(file.size), None, Some([ErrorMessage(error)]))
  }

  /** `processFileWithErrorHandling`: what `processFile` returns, or the fallback for what it throws. */
  function ProcessFileWithErrorHandling(file: UploadedFile, config: FileUploadConfig, attempt: FileAttempt)
    : UploadResponse
  {
    match ProcessFile(file, config, attempt)
    case Returned(response) => response
    case Threw(error) => HandleFileProcessingError(file, error)
  }

  /**
   * Every result names its file and size. It succeeds exactly when its
   * status is `completed` or `skipped`; only the fallback, reached when id
   * generation failed, has neither an id nor a status; and a failure carries
   * exactly one error.
   */
  lemma ResultShape(file: UploadedFile, config: FileUploadConfig, attempt: FileAttempt)
    ensures var r := ProcessFileWithErrorHandling(file, config, attempt);
      && r.fileName == Some(file.originalName) && r.fileSize == Some(file.size)
      && (r.success <==> r.processingStatus in {Some(Completed), Some(Skipped)})
      && (r.fileId.None? <==> attempt.fileId.Threw?)
      && (r.processingStatus.None? <==> attempt.fileId.Threw?)
      && (r.fileId.Some? ==> r.fileId == Some(attempt.fileId.value))
      && (!r.success <==> r.errors.Some?)
      && (r.errors.Some? ==> |r.errors.value| == 1)
  {
    var fileId := attempt.fileId;
    if fileId.Returned? {
      HandlersAgree(file, fileId.value, NonError);
      match ForwardToPythonService(attempt.fetch)
      case Returned(_) =>
      case Threw(e) => HandlersAgree(file, fileId.value, e);
    }
  }

  /**
   * With no service URL nothing is forwarded: every file whose id was
   * generated is skipped successfully, whatever the service would have done.
   */
  lemma NotConfiguredSkips(file: UploadedFile, config: FileUploadConfig, attempt: FileAttempt)
    requires !ServiceConfigured(config) && attempt.fileId.Returned?
    ensures SucceededWith(ProcessFileWithErrorHandling(file, config, attempt), Skipped)
    ensures forall fetch :: ProcessFileWithErrorHandling(file, config, attempt)
                         == ProcessFileWithErrorHandling(file, config, FileAttempt(attempt.fileId, fetch))
  {
  }

  /** A timed-out call fails the file with the timeout message, keeping its id. */
  lemma TimeoutFailsFile(file: UploadedFile, config: FileUploadConfig, fileId: string, message: string)
    requires ServiceConfigured(config)
    ensures var r := ProcessFileWithErrorHandling(file, config,
                       FileAttempt(Returned(fileId), Rejected(JsError("AbortError", message))));
      !r.success && r.processingStatus == Some(Failed) && r.fileId == Some(fileId)
      && r.errors == Some([TimeoutMessage])
  {
  }

  /**
   * `processFiles`: the files one after another, each through the error
   * handling, each result pushed at the end; file `i` sees only its own
   * attempt, so a failure never stops the files after it.
   */
  method ProcessFiles(files: seq<UploadedFile>, config: FileUploadConfig, attempts: nat -> FileAttempt)
    returns (results: seq<UploadResponse>)
    ensures |results| == |files|
    ensures forall i :: 0 <= i < |files| ==>
      results[i] == ProcessFileWithErrorHandling(files[i], config, attempts(i))
  {
    results := [];
    for i := 0 to |files|
      invariant |results| == i
      invariant forall j :: 0 <= j < i ==>
        results[j] == ProcessFileWithErrorHandling(files[j], config, attempts(j))
    {
      var result := ProcessFileWithErrorHandling(files[i], config, attempts(i));
      results := results + [result];
    }
  }

  /** How `uploadFile` ends: the refusal `validateFileInput` wrote, or the summary. */
  datatype UploadReply = Refusal(reply: Reply) | Summary(body: UploadSummary)

  /**
   * `uploadFile`: admit the files, process them, and answer with the
   * summary; the number of successes and failures always adds up to the
   * number of files, and the status is 200 exactly when all succeeded.
   */
  method UploadFile(req: UploadRequest, config: FileUploadConfig, attempts: nat -> FileAttempt)
    returns (reply: UploadReply)
    ensures ValidateFileInput(req).Refused? <==> reply.Refusal?
    ensures reply.Refusal? ==> reply.reply == ValidateFileInput(req).reply
    ensures reply.Summary? ==>
      var files := ExtractFiles(req);
      var body := reply.body;
      && body.totalFiles == |files| == |body.results|
      && body.successfulFiles + body.failedFiles == |files|
      && (body.statusCode == 200 <==> forall i :: 0 <= i < |files| ==> body.results[i].success)
      && (forall i :: 0 <= i < |files| ==>
            body.results[i] == ProcessFileWithErrorHandling(files[i], config, attempts(i)))
      && body == SendUploadResponse(BuildUploadResponse(body.results), body.results, |files|)
  {
    match ValidateFileInput(req)
    case Refused(r) =>
      reply := Refusal(r);
    case Admitted(files) =>
      var results := ProcessFiles(files, config, attempts);
      var data := BuildUploadResponse(results);
      reply := Summary(SendUploadResponse(data, results, |files|));
  }

  /**
   * `generateFileId`: the clock in base 36, a dash and the random bytes in
   * hexadecimal.
   */
  function GenerateFileId(now: nat, random: seq<byte>): string {
    NatToRadix(now, 36) + "-" + Hex(random)
  }

  /**
   * An id has exactly one dash; before it only base-36 digits, after it two
   * lower-case hex digits per random byte (16 for the 8 bytes drawn).
   */
  lemma FileIdShape(now: nat, random: seq<byte>)
    ensures var id := GenerateFileId(now, random);
      var stamp := NatToRadix(now, 36);
      && id[|stamp|] == '-'
      && (forall i :: 0 <= i < |id| && i != |stamp| ==> id[i] != '-')
      && (forall i :: 0 <= i < |stamp| ==> 0 <= DigitValue(id[i]) < 36)
      && |id| == |stamp| + 1 + 2 * |random|
      && (forall i :: |stamp| < i < |id| ==> 0 <= DigitValue(id[i]) < 16 && !('A' <= id[i] <= 'Z'))
  {
    var stamp := NatToRadix(now, 36);
    var hex := Hex(random);
    var id := GenerateFileId(now, random);
    assert id == stamp + ("-" + hex);
    forall i | 0 <= i < |id| && i != |stamp| ensures id[i] != '-' {
      if i < |stamp| {
        assert id[i] == stamp[i];
      } else {
        assert id[i] == hex[i - |stamp| - 1];
      }
    }
  }

  /** Different clock readings or different random bytes give different ids. */
  lemma FileIdInjective(now1: nat, random1: seq<byte>, now2: nat, random2: seq<byte>)
    requires GenerateFileId(now1, random1) == GenerateFileId(now2, random2)
    ensures now1 == now2 && random1 == random2
  {
    var s1, s2 := NatToRadix(now1, 36), NatToRadix(now2, 36);
    var id := GenerateFileId(now1, random1);
    FileIdShape(now1, random1);
    FileIdShape(now2, random2);
    assert |s1| == |s2|;
    assert s1 == id[..|s1|] == s2;
    RadixInjective(now1, now2, 36);
    assert Hex(random1) == id[|s1| + 1..] == Hex(random2);
    HexInjective(random1, random2);
  }

  /** The body `getUploadStatus` answers with for a known id. */
  datatype UploadStatus = UploadStatus(success: bool, fileId: string, status: string, message: string)

  /** `getUploadStatus`: the 400 for a missing or empty id, or the fixed `completed` status. */
  datatype StatusReply = StatusRefused(reply: Reply) | StatusFound(body: UploadStatus)

  function GetUploadStatus(fileId: Option<string>): (r: StatusReply)
    ensures r.StatusRefused? <==> fileId.None? || fileId.value == ""
    ensures r.StatusRefused? ==>
      r.reply == Reply(400, false, "File ID is required", ["fileId parameter is required"], None)
    ensures r.StatusFound? ==>
      r.body.success && r.body.fileId == fileId.value && r.body.status == "completed"
      && r.body.message == "File processing completed"
  {
    if fileId.None? || fileId.value == "" then
      StatusRefused(Reply(400, false, "File ID is required", ["fileId parameter is required"], None))
    else StatusFound(UploadStatus(true, fileId.value, "completed", "File processing completed"))
  }
}
