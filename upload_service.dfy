/**
 * The pure half of the upload service (src/services/uploadService.ts):
 * admitting a request's files, the per-file result records, the success and
 * failure rules of the call to the processing service, and the summary the
 * upload endpoint answers with.
 */
module UploadService {
  import opened Maybe
  import opened Text
  import opened Seqs
  import opened Uploads

  /** `sendNoValidFileError`: `files` was present but held no file. */
  function NoValidFileReply(): Reply {
    Reply(400, false, "No valid files provided", ["Valid file is required"], None)
  }

  /** What `validateFileInput` leaves: a 400 already written (it returns `null`), or the files. */
  datatype Admission = Refused(reply: Reply) | Admitted(files: seq<UploadedFile>)

  /**
   * `validateFileInput`: no `file` and no `files` is answered with "No file
   * provided"; an upload that normalises to no file with "No valid files
   * provided"; otherwise the normalised list is handed on in order.
   */
  function ValidateFileInput(req: UploadRequest): (a: Admission)
    ensures !HasUpload(req) ==> a == Refused(NoFileReply())
    ensures HasUpload(req) && ExtractFiles(req) == [] ==> a == Refused(NoValidFileReply())
    ensures a.Admitted? <==> ExtractFiles(req) != []
    ensures a.Admitted? ==> a.files == ExtractFiles(req)
  {
    ExtractFilesCases(req);
    if !HasUpload(req) then Refused(NoFileReply())
    else
      var files := ExtractFiles(req);
      if files == [] then Refused(NoValidFileReply()) else Admitted(files)
  }

  /** When `files` is present the single `file` plays no part in what is admitted. */
  lemma AdmissionIgnoresSingleFile(req: UploadRequest)
    requires !req.files.NoFiles?
    ensures ValidateFileInput(req) == ValidateFileInput(UploadRequest(None, req.files))
  {
    ExtractFilesCases(req);
  }

  /** A successful result with the given processing status. */
  predicate SucceededWith(r: UploadResponse, status: ProcessingStatus) {
    r.success && r.processingStatus == Some(status)
  }

  /** `results.filter(r => r.success).length`. */
  function SuccessfulCount(results: seq<UploadResponse>): nat {
    |Filter(results, (r: UploadResponse) => r.success)|
  }

  /** `results.filter(r => !r.success).length`. */
  function FailedCount(results: seq<UploadResponse>): nat {
    |Filter(results, (r: UploadResponse) => !r.success)|
  }

  /** `getFileCounts`: the processed and the skipped files. */
  datatype FileCounts = FileCounts(processedFiles: nat, skippedFiles: nat)

  function GetFileCounts(results: seq<UploadResponse>): FileCounts {
    FileCounts(
      |Filter(results, (r: UploadResponse) => SucceededWith(r, Completed))|,
      |Filter(results, (r: UploadResponse) => SucceededWith(r, Skipped))|)
  }

  /** Counting the successes of a list one result at a time. */
  lemma {:induction false} CountsBelowSuccesses(results: seq<UploadResponse>)
    ensures GetFileCounts(results).processedFiles + GetFileCounts(results).skippedFiles
         <= SuccessfulCount(results)
    decreases |results|
  {
    if results != [] {
      CountsBelowSuccesses(results[1..]);
    }
  }

  /** Every result is counted once, as a success or as a failure. */
  lemma {:induction false} SuccessesAndFailuresAddUp(results: seq<UploadResponse>)
    ensures SuccessfulCount(results) + FailedCount(results) == |results|
    decreases |results|
  {
    if results != [] {
      SuccessesAndFailuresAddUp(results[1..]);
    }
  }

  const MixedPrefix: string := "All files uploaded successfully ("
  const ProcessedMessage: string := "All files uploaded and processed successfully"
  const ServiceNotConfigured: string := "Python service not configured"
  const SkippedMessage: string := MixedPrefix + ServiceNotConfigured + " - processing skipped)"
  const PartialFailureMessage: string := "Some files failed to upload"

  /** What follows the processed count in the mixed message. */
  function MixedTail(skippedFiles: nat): string {
    " processed, " + Decimal(skippedFiles) + " skipped - " + ServiceNotConfigured + ")"
  }

  /** `buildMixedProcessingMessage`. */
  function MixedMessage(processedFiles: nat, skippedFiles: nat): string {
    MixedPrefix + (Decimal(processedFiles) + MixedTail(skippedFiles))
  }

  /**
   * `buildSuccessMessage`: both kinds present gives the message quoting both
   * counts; only processed files the plain success; anything else, 0 and 0
   * included, the "processing skipped" text.
   */
  function BuildSuccessMessage(processedFiles: nat, skippedFiles: nat): (m: string)
    ensures processedFiles > 0 && skippedFiles > 0 ==> m == MixedMessage(processedFiles, skippedFiles)
    ensures processedFiles > 0 && skippedFiles == 0 ==> m == ProcessedMessage
    ensures processedFiles == 0 ==> m == SkippedMessage
  {
    if processedFiles > 0 && skippedFiles > 0 then MixedMessage(processedFiles, skippedFiles)
    else if processedFiles > 0 then ProcessedMessage
    else SkippedMessage
  }

  /**
   * The mixed message opens with the same text as the skipped one but quotes
   * a digit where that one says "Python", so a client can tell all three
   * success messages apart, and none of them is the partial-failure text.
   */
  lemma SuccessMessagesDistinct(p: nat, s: nat)
    requires p > 0 && s > 0
    ensures MixedMessage(p, s) != SkippedMessage && MixedMessage(p, s) != ProcessedMessage
    ensures SkippedMessage != ProcessedMessage
    ensures BuildSuccessMessage(p, s) != PartialFailureMessage
  {
    var m := MixedMessage(p, s);
    var k := |MixedPrefix|;
    MixedMessageShape(p, s);
    assert SkippedMessage[..k] == MixedPrefix;
    assert SkippedMessage[k] == ServiceNotConfigured[0] == 'P';
    assert DigitValue('P') == -1;
    assert MixedPrefix[19] == 's' && ProcessedMessage[19] == 'a';
    assert PartialFailureMessage[0] != MixedPrefix[0];
  }

  /** The mixed message is the prefix followed by the decimal digits of the processed count. */
  lemma MixedMessageShape(p: nat, s: nat)
    ensures var m := MixedMessage(p, s);
      |m| > |MixedPrefix| && m[..|MixedPrefix|] == MixedPrefix && 0 <= DigitValue(m[|MixedPrefix|])
  {
    var m := MixedMessage(p, s);
    assert m[|MixedPrefix|] == Decimal(p)[0];
  }

  /** The fields `buildUploadResponse` computes. */
  datatype ResponseData = ResponseData(
    allSuccessful: bool, statusCode: nat, message: string, processedFiles: nat, skippedFiles: nat)

  /**
   * `buildUploadResponse`: 200 when every file succeeded and 207
   * (Multi-Status, section 11.1 of RFC 4918) otherwise; a partial failure
   * always reports "Some files failed to upload", a full success the message
   * chosen from the counts.
   */
  function BuildUploadResponse(results: seq<UploadResponse>): (d: ResponseData)
    ensures d.allSuccessful <==> forall i :: 0 <= i < |results| ==> results[i].success
    ensures d.statusCode == 200 <==> d.allSuccessful
    ensures d.statusCode == 200 || d.statusCode == 207
    ensures !d.allSuccessful ==> d.message == PartialFailureMessage
    ensures d.allSuccessful ==> d.message == BuildSuccessMessage(d.processedFiles, d.skippedFiles)
    ensures d.processedFiles == GetFileCounts(results).processedFiles
    ensures d.skippedFiles == GetFileCounts(results).skippedFiles
  {
    var allSuccessful := Every(results, (r: UploadResponse) => r.success);
    var counts := GetFileCounts(results);
    ResponseData(
      allSuccessful,
      if allSuccessful then 200 else 207,
      if allSuccessful then BuildSuccessMessage(counts.processedFiles, counts.skippedFiles)
      else PartialFailureMessage,
      counts.processedFiles,
      counts.skippedFiles)
  }

  /** The JSON body `sendUploadResponse` writes, with its status. */
  datatype UploadSummary = UploadSummary(
    statusCode: nat,
    success: bool,
    message: string,
    results: seq<UploadResponse>,
    totalFiles: nat,
    successfulFiles: nat,
    failedFiles: nat,
    processedFiles: nat,
    skippedFiles: nat)

  /**
   * `sendUploadResponse`: the response data, the results as they are, and
   * the number of successes and failures, which always add up to the number
   * of results.
   */
  function SendUploadResponse(data: ResponseData, results: seq<UploadResponse>, totalFiles: nat)
    : (body: UploadSummary)
    ensures body.successfulFiles + body.failedFiles == |results|
    ensures body.successfulFiles == SuccessfulCount(results)
    ensures body.statusCode == data.statusCode && body.success == data.allSuccessful
    ensures body.message == data.message && body.results == results && body.totalFiles == totalFiles
    ensures body.processedFiles == data.processedFiles && body.skippedFiles == data.skippedFiles
  {
    SuccessesAndFailuresAddUp(results);
    UploadSummary(data.statusCode, data.allSuccessful, data.message, results, totalFiles,
      SuccessfulCount(results), FailedCount(results), data.processedFiles, data.skippedFiles)
  }

  /** A response for all-successful results reports no failure. */
  lemma AllSuccessfulMeansNoFailure(results: seq<UploadResponse>)
    requires BuildUploadResponse(results).allSuccessful
    ensures FailedCount(results) == 0
    ensures SuccessfulCount(results) == |results|
  {
    FilterAll(results, (r: UploadResponse) => r.success);
    SuccessesAndFailuresAddUp(results);
  }

  /**
   * When every file was skipped (no service configured) the answer is 200
   * with the "processing skipped" message, every file counted as skipped and
   * none as processed.
   */
  lemma AllSkippedResponse(results: seq<UploadResponse>)
    requires forall i :: 0 <= i < |results| ==> SucceededWith(results[i], Skipped)
    ensures var d := BuildUploadResponse(results);
      d.statusCode == 200 && d.processedFiles == 0 && d.skippedFiles == |results|
      && d.message == SkippedMessage
  {
    FilterNone(results, (r: UploadResponse) => SucceededWith(r, Completed));
    FilterAll(results, (r: UploadResponse) => SucceededWith(r, Skipped));
  }

  const NotConfiguredMessage: string := "File uploaded successfully (Python service not configured - processing skipped)"
  const ProcessedFileMessage: string := "File uploaded and processed successfully"

  /** `handlePythonServiceNotConfigured`. */
  function HandleNotConfigured(file: UploadedFile, fileId: string): UploadResponse {
    UploadResponse(true, NotConfiguredMessage, Some(fileId), Some(file.originalName), Some(file.size),
      Some(Skipped), None)
  }

  /** `handleSuccessfulProcessing`; the service's own message is only logged. */
  function HandleSuccessfulProcessing(file: UploadedFile, fileId: string): UploadResponse {
    UploadResponse(true, ProcessedFileMessage, Some(fileId), Some(file.originalName), Some(file.size),
      Some(Completed), None)
  }

  /** `handleProcessingError`: a failure naming the file, with the error's message as its only error. */
  function HandleProcessingError(file: UploadedFile, fileId: string, error: Thrown): UploadResponse {
    UploadResponse(false, "Failed to process file: " + file.originalName, Some(fileId),
      Some(file.originalName), Some(file.size), Some(Failed), Some([ErrorMessage(error)]))
  }

  /**
   * The three builders agree on the file's id, name and size, and their
   * success flag says exactly whether the status is `completed` or `skipped`;
   * only a failure carries errors, exactly one.
   */
  lemma HandlersAgree(file: UploadedFile, fileId: string, error: Thrown)
    ensures var rs := [HandleNotConfigured(file, fileId), HandleSuccessfulProcessing(file, fileId),
                       HandleProcessingError(file, fileId, error)];
      forall r :: r in rs ==>
        && r.fileId == Some(fileId) && r.fileName == Some(file.originalName) && r.fileSize == Some(file.size)
        && (r.success <==> r.processingStatus in {Some(Completed), Some(Skipped)})
        && (r.errors.Some? <==> !r.success)
        && (r.errors.Some? ==> |r.errors.value| == 1)
    ensures HandleProcessingError(file, fileId, error).errors == Some([ErrorMessage(error)])
    ensures error.NonError? ==> HandleProcessingError(file, fileId, error).errors == Some(["Unknown error"])
  {
  }

  /** The processing service's JSON answer; `message` is `None` when it is missing. */
  datatype PythonServiceResponse = PythonServiceResponse(success: bool, message: Option<string>)

  /** The body of a response as `response.json()` sees it. */
  datatype JsonBody = Parsed(response: PythonServiceResponse) | Unparsable(error: Thrown)

  /**
   * What `fetch` did: it rejected (an abort or a network failure), or a
   * response arrived with its `ok` flag, status and status text.
   */
  datatype FetchResult =
    | Rejected(error: Thrown)
    | Responded(ok: bool, status: nat, statusText: string, body: JsonBody)

  const StatusPrefix: string := "Python service responded with status: "
  const DefaultServiceFailure: string := "Python service processing failed"

  /** `result.message || 'Python service processing failed'`. */
  function ServiceFailureMessage(message: Option<string>): (m: string)
    ensures m != ""
    ensures message.Some? && message.value != "" ==> m == message.value
  {
    if message.Some? && message.value != "" then message.value else DefaultServiceFailure
  }

  /**
   * `makePythonServiceRequest`, once `fetch` has settled: a rejection
   * propagates; a status other than 2xx throws an `Error` quoting status and
   * status text; an unreadable body propagates its error; `success: false`
   * throws the service's message or the default; only a successful body is
   * returned.
   */
  function MakePythonServiceRequest(fetch: FetchResult): (r: Attempt<PythonServiceResponse>)
    ensures r.Returned? <==>
      fetch.Responded? && fetch.ok && fetch.body.Parsed? && fetch.body.response.success
    ensures r.Returned? ==> r.value == fetch.body.response
    ensures fetch.Rejected? ==> r == Threw(fetch.error)
    ensures fetch.Responded? && !fetch.ok ==>
      r == Threw(JsError("Error", StatusPrefix + Decimal(fetch.status) + " " + fetch.statusText))
    ensures fetch.Responded? && fetch.ok && fetch.body.Unparsable? ==> r == Threw(fetch.body.error)
    ensures fetch.Responded? && fetch.ok && fetch.body.Parsed? && !fetch.body.response.success ==>
      r == Threw(JsError("Error", ServiceFailureMessage(fetch.body.response.message)))
  {
    match fetch
    case Rejected(error) => Threw(error)
    case Responded(ok, status, statusText, body) =>
      if !ok then Threw(JsError("Error", StatusPrefix + Decimal(status) + " " + statusText))
      else
        match body
        case Unparsable(error) => Threw(error)
        case Parsed(response) =>
          if !response.success then Threw(JsError("Error", ServiceFailureMessage(response.message)))
          else Returned(response)
  }

  /** The message of a rejected status reads back the status code and text. */
  lemma StatusMessageQuotesStatus(status: nat, statusText: string)
    ensures var m := StatusPrefix + Decimal(status) + " " + statusText;
      var d := Decimal(status);
      StartsWith(m, StatusPrefix)
      && m[|StatusPrefix|..|StatusPrefix| + |d|] == d
      && m[|StatusPrefix| + |d| + 1..] == statusText
  {
    var d := Decimal(status);
    var m := StatusPrefix + d + " " + statusText;
    assert m == StatusPrefix + (d + (" " + statusText));
  }
}
