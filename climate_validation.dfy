/**
 * The climate-document validation middleware (src/validation/climateValidation.ts):
 * every uploaded file gets a type and size check, a suspicious-name check and
 * a structural check, each with its own lists of errors and warnings; the
 * request is rejected when any file has an error.
 *
 * The structural check is chosen from the last dot-separated segment of the
 * name, which never carries a dot, while the kind map is keyed by dotted
 * extensions; so every file is checked as text. The model keeps that.
 */
module ClimateValidation {
  import opened Maybe
  import opened Text
  import opened Encoding
  import opened FileUtils
  import opened Uploads
  import opened ClimateTypes
  import opened ClimateHelpers
  import opened ClimateValidators
  import opened ClimateUtils

  /** `getValidationFunction`: the kind whose validator the map holds under `fileType`, if any. */
  function ValidatorFor(fileType: string): (r: Option<ClimateFileType>)
    ensures r.Some? <==> IsSupportedClimateFileType(fileType)
    ensures r.Some? ==> TypeName(r.value) == fileType
  {
    if fileType == "pdf" then Some(Pdf)
    else if fileType == "csv" then Some(Csv)
    else if fileType == "txt" then Some(Txt)
    else if fileType == "docx" then Some(Docx)
    else if fileType == "xlsx" then Some(Xlsx)
    else None
  }

  /** `name.toLowerCase().split('.').pop()`: the text after the last dot, or the whole name. */
  function LastSegment(originalName: string): (segment: string)
    ensures '.' !in segment
  {
    var parts := Split(Lower(originalName), '.');
    parts[|parts| - 1]
  }

  /** The kind `validateBasicFileStructure` checks a file as. */
  function StructureKind(originalName: string): ClimateFileType {
    FileTypeFromExtension(LastSegment(originalName))
  }

  /**
   * With the two lookup maps read by their literal keys only, every file is
   * checked by the TXT validator. A last segment naming an inherited object
   * property (`constructor`, `__proto__`) would find no validator in the
   * source and skip the structure check; the model does not capture that.
   */
  lemma EveryFileGetsTxtCheck(originalName: string)
    ensures StructureKind(originalName) == Txt
    ensures ValidatorFor(TypeName(StructureKind(originalName))) == Some(Txt)
  {
  }

  /** `validateBasicFileStructure`: the validator the map yields for the last segment, if any. */
  method ValidateBasicFileStructure(file: UploadedFile, findings: Findings, utf8: seq<byte> -> string)
    modifies findings
    ensures findings.errors
         == old(findings.errors) + StructureErrors(StructureKind(file.originalName), file.buffer, utf8)
    ensures findings.warnings
         == old(findings.warnings) + StructureWarnings(StructureKind(file.originalName), file.buffer, utf8)
  {
    var parts := Split(Lower(file.originalName), '.');
    var fileType := FileTypeFromExtension(parts[|parts| - 1]);
    var validator := ValidatorFor(TypeName(fileType));
    EveryKindSupported(fileType);
    assert validator == Some(fileType) by {
      assert TypeName(validator.value) == TypeName(fileType);
    }
    if validator.Some? {
      RunValidator(validator.value, file, findings, utf8);
    }
  }

  /**
   * The errors of `validateFileType` and `validateFileSize`, or `None` when
   * the size lookup throws.
   */
  function TypeAndSizeErrors(file: UploadedFile, config: ClimateConfig): Option<seq<ValidationError>> {
    var t := KindOf(file.originalName);
    if !IsSupportedClimateFileType(TypeName(t)) then Some([UnsupportedFileType(t)])
    else
      match MaxSizeForFileType(t, config)
      case None => None
      case Some(maxSize) => Some(if file.size > maxSize then [FileTooLarge(t, maxSize)] else [])
  }

  /** The warnings of `checkSuspiciousFile`. */
  function SuspicionWarnings(file: UploadedFile): seq<ValidationWarning> {
    if IsSuspiciousClimateFile(file.originalName) then [SuspiciousFile] else []
  }

  /**
   * `validateFileTypeAndSize`: the size check only when the kind check
   * returned a kind, the suspicious-name check always, unless the size lookup
   * threw first.
   */
  method ValidateFileTypeAndSize(file: UploadedFile, config: ClimateConfig, findings: Findings)
    returns (threw: bool)
    modifies findings
    ensures threw <==> TypeAndSizeErrors(file, config).None?
    ensures !threw ==> findings.errors == old(findings.errors) + TypeAndSizeErrors(file, config).value
    ensures !threw ==> findings.warnings == old(findings.warnings) + SuspicionWarnings(file)
  {
    var fileType := ValidateFileType(file, findings);
    if fileType.Some? {
      threw := ValidateFileSize(file, fileType.value, config, findings);
      if threw {
        return;
      }
    } else {
      threw := false;
    }
    CheckSuspiciousFile(file, findings);
  }

  /** What `validateClimateFile` returns for one file, or `None` when it throws. */
  function ClimateFileResult(file: UploadedFile, config: ClimateConfig, utf8: seq<byte> -> string)
    : Option<ValidationResult>
  {
    match TypeAndSizeErrors(file, config)
    case None => None
    case Some(typeErrors) =>
      var kind := StructureKind(file.originalName);
      var errors := typeErrors + StructureErrors(kind, file.buffer, utf8);
      var warnings := SuspicionWarnings(file) + StructureWarnings(kind, file.buffer, utf8);
      Some(ValidationResult(|errors| == 0, errors, warnings, ExtractBasicMetadata(file)))
  }

  /** `validateClimateFile`: fresh lists, the checks in order, valid when no error was recorded. */
  method ValidateClimateFile(file: UploadedFile, config: ClimateConfig, utf8: seq<byte> -> string)
    returns (result: Option<ValidationResult>)
    ensures result == ClimateFileResult(file, config, utf8)
  {
    var findings := new Findings();
    var metadata := ExtractBasicMetadata(file);
    var threw := ValidateFileTypeAndSize(file, config, findings);
    if threw {
      return None;
    }
    ghost var typeErrors := TypeAndSizeErrors(file, config).value;
    assert findings.errors == typeErrors && findings.warnings == SuspicionWarnings(file);
    ValidateBasicFileStructure(file, findings, utf8);
    ghost var kind := StructureKind(file.originalName);
    assert findings.errors == typeErrors + StructureErrors(kind, file.buffer, utf8);
    assert findings.warnings == SuspicionWarnings(file) + StructureWarnings(kind, file.buffer, utf8);
    return Some(ValidationResult(|findings.errors| == 0, findings.errors, findings.warnings, metadata));
  }

  /** With a complete configuration the kind and size checks record at most the size error. */
  lemma TypeAndSizeWhenComplete(file: UploadedFile, config: ClimateConfig)
    requires Complete(config)
    ensures var maxSize := MaxSizeForFileType(KindOf(file.originalName), config).value;
      TypeAndSizeErrors(file, config)
        == Some(if file.size > maxSize then [FileTooLarge(KindOf(file.originalName), maxSize)] else [])
  {
    EveryKindSupported(KindOf(file.originalName));
  }

  /** A file's errors and warnings with a complete configuration, spelled out. */
  lemma ClimateFileFindings(file: UploadedFile, config: ClimateConfig, utf8: seq<byte> -> string)
    requires Complete(config)
    ensures var kind := KindOf(file.originalName);
      var maxSize := MaxSizeForFileType(kind, config).value;
      var r := ClimateFileResult(file, config, utf8);
      && r.Some?
      && r.value.errors
         == (if file.size > maxSize then [FileTooLarge(kind, maxSize)] else []) + TxtStructureErrors(file.buffer, utf8)
      && r.value.warnings == SuspicionWarnings(file) + TxtStructureWarnings(file.buffer, utf8)
      && (r.value.isValid <==> r.value.errors == [])
  {
    TypeAndSizeWhenComplete(file, config);
    EveryFileGetsTxtCheck(file.originalName);
  }

  /** Validating one file throws exactly when the configuration lacks a section. */
  lemma ClimateFileThrows(file: UploadedFile, config: ClimateConfig, utf8: seq<byte> -> string)
    ensures ClimateFileResult(file, config, utf8).None? <==> !Complete(config)
  {
    EveryKindSupported(KindOf(file.originalName));
  }

  /**
   * With a complete configuration a file is valid exactly when it has no
   * error, which is exactly when it is within its kind's size limit and its
   * bytes are present and decode to non-empty text.
   */
  lemma ClimateFileValidity(file: UploadedFile, config: ClimateConfig, utf8: seq<byte> -> string)
    requires Complete(config)
    ensures var r := ClimateFileResult(file, config, utf8);
      && r.Some?
      && (r.value.isValid <==> r.value.errors == [])
      && (r.value.isValid <==>
           && file.size <= MaxSizeForFileType(KindOf(file.originalName), config).value
           && file.buffer.Some? && utf8(file.buffer.value) != [])
  {
    ClimateFileFindings(file, config, utf8);
  }

  lemma TxtCodes(buffer: Option<seq<byte>>, utf8: seq<byte> -> string)
    ensures forall e :: e in TxtStructureErrors(buffer, utf8) ==>
      e.code == "EMPTY_TXT" || e.code == "TXT_VALIDATION_ERROR"
    ensures forall w :: w in TxtStructureWarnings(buffer, utf8) ==> w.code == "TXT_TOO_SHORT"
  {
    if buffer.None? {
      var e := ValidationFailure(Txt, MissingBufferMessage);
      assert e.code == "TXT" + "_VALIDATION_ERROR";
      assert TxtStructureErrors(buffer, utf8) == [e];
    }
  }

  /**
   * The only findings a file can get are FILE_TOO_LARGE, the two text errors,
   * SUSPICIOUS_FILE and TXT_TOO_SHORT: no PDF, CSV, DOCX or XLSX check ever
   * runs.
   */
  lemma ClimateFileCodes(file: UploadedFile, config: ClimateConfig, utf8: seq<byte> -> string)
    requires Complete(config)
    ensures var r := ClimateFileResult(file, config, utf8);
      && r.Some?
      && (forall e :: e in r.value.errors ==>
           e.code == "FILE_TOO_LARGE" || e.code == "EMPTY_TXT" || e.code == "TXT_VALIDATION_ERROR")
      && (forall w :: w in r.value.warnings ==> w.code == "SUSPICIOUS_FILE" || w.code == "TXT_TOO_SHORT")
  {
    ClimateFileFindings(file, config, utf8);
    var r := ClimateFileResult(file, config, utf8).value;
    var kind := KindOf(file.originalName);
    var maxSize := MaxSizeForFileType(kind, config).value;
    var sizeErrors := if file.size > maxSize then [FileTooLarge(kind, maxSize)] else [];
    var textErrors := TxtStructureErrors(file.buffer, utf8);
    assert forall e :: e in r.errors ==> e in sizeErrors || e in textErrors;
    TxtCodes(file.buffer, utf8);
    var textWarnings := TxtStructureWarnings(file.buffer, utf8);
    assert forall w :: w in r.warnings ==> w in SuspicionWarnings(file) || w in textWarnings;
  }

  /** The results of the files before the first throw, appended one per file. */
  function AllFileResults(files: seq<UploadedFile>, config: ClimateConfig, utf8: seq<byte> -> string)
    : Option<seq<ValidationResult>>
    decreases |files|
  {
    if files == [] then Some([])
    else
      match AllFileResults(files[..|files| - 1], config, utf8)
      case None => None
      case Some(results) =>
        match ClimateFileResult(files[|files| - 1], config, utf8)
        case None => None
        case Some(r) => Some(results + [r])
  }

  /** `validateAllFiles`: validates the files one after another, in order. */
  method ValidateAllFiles(files: seq<UploadedFile>, config: ClimateConfig, utf8: seq<byte> -> string)
    returns (results: Option<seq<ValidationResult>>)
    ensures results == AllFileResults(files, config, utf8)
  {
    var validationResults: seq<ValidationResult> := [];
    var i := 0;
    while i < |files|
      invariant 0 <= i <= |files|
      invariant AllFileResults(files[..i], config, utf8) == Some(validationResults)
    {
      var result := ValidateClimateFile(files[i], config, utf8);
      assert files[..i + 1][..i] == files[..i];
      if result.None? {
        NoneStaysNone(files, i + 1, config, utf8);
        return None;
      }
      validationResults := validationResults + [result.value];
      i := i + 1;
    }
    assert files[..i] == files;
    return Some(validationResults);
  }

  /** Once a prefix throws, so does every longer prefix. */
  lemma {:induction false} NoneStaysNone(files: seq<UploadedFile>, k: nat, config: ClimateConfig, utf8: seq<byte> -> string)
    requires k <= |files|
    requires AllFileResults(files[..k], config, utf8).None?
    ensures AllFileResults(files, config, utf8).None?
    decreases |files| - k
  {
    if k < |files| {
      assert files[..k + 1][..k] == files[..k];
      NoneStaysNone(files, k + 1, config, utf8);
    } else {
      assert files[..k] == files;
    }
  }

  /**
   * Validating all files throws exactly when there is a file and the
   * configuration is incomplete; otherwise there is one result per file, in
   * order.
   */
  lemma {:induction false} AllFileResultsShape(files: seq<UploadedFile>, config: ClimateConfig, utf8: seq<byte> -> string)
    ensures AllFileResults(files, config, utf8).None? <==> files != [] && !Complete(config)
    ensures AllFileResults(files, config, utf8).Some? ==>
      var rs := AllFileResults(files, config, utf8).value;
      |rs| == |files| && forall i :: 0 <= i < |files| ==> Some(rs[i]) == ClimateFileResult(files[i], config, utf8)
    decreases |files|
  {
    if files != [] {
      var n := |files|;
      var init := files[..n - 1];
      var last := files[n - 1];
      AllFileResultsShape(init, config, utf8);
      ClimateFileThrows(last, config, utf8);
      if Complete(config) {
        var rs := AllFileResults(init, config, utf8).value;
        var r := ClimateFileResult(last, config, utf8).value;
        assert AllFileResults(files, config, utf8) == Some(rs + [r]);
        forall i | 0 <= i < n ensures Some((rs + [r])[i]) == ClimateFileResult(files[i], config, utf8) {
          if i < n - 1 {
            assert files[i] == init[i];
          }
        }
      }
    }
  }

  /** `hasValidationErrors`: some result is invalid. */
  predicate HasValidationErrors(results: seq<ValidationResult>) {
    exists i :: 0 <= i < |results| && !results[i].isValid
  }

  /** `hasValidationWarnings`: some result has a warning. */
  predicate HasValidationWarnings(results: seq<ValidationResult>) {
    exists i :: 0 <= i < |results| && |results[i].warnings| > 0
  }

  /** `results.flatMap(r => r.errors)`. */
  function AllErrors(results: seq<ValidationResult>): seq<ValidationError>
    decreases |results|
  {
    if results == [] then [] else results[0].errors + AllErrors(results[1..])
  }

  /** `results.flatMap(r => r.warnings)`. */
  function AllWarnings(results: seq<ValidationResult>): seq<ValidationWarning>
    decreases |results|
  {
    if results == [] then [] else results[0].warnings + AllWarnings(results[1..])
  }

  function ErrorTexts(errors: seq<ValidationError>): seq<string> {
    seq(|errors|, i requires 0 <= i < |errors| => errors[i].message)
  }

  function WarningTexts(warnings: seq<ValidationWarning>): seq<string> {
    seq(|warnings|, i requires 0 <= i < |warnings| => warnings[i].message)
  }

  /**
   * When validity means "no errors", some result is invalid exactly when the
   * flattened error list is non-empty, and some result has a warning exactly
   * when the flattened warning list is non-empty.
   */
  lemma {:induction false} FlattenedFindings(results: seq<ValidationResult>)
    requires forall i :: 0 <= i < |results| ==> (results[i].isValid <==> results[i].errors == [])
    ensures HasValidationErrors(results) <==> AllErrors(results) != []
    ensures HasValidationWarnings(results) <==> AllWarnings(results) != []
    decreases |results|
  {
    if results != [] {
      var rest := results[1..];
      FlattenedFindings(rest);
      assert forall i :: 1 <= i < |results| ==> results[i] == rest[i - 1];
      if HasValidationErrors(rest) {
        var i :| 0 <= i < |rest| && !rest[i].isValid;
        assert !results[i + 1].isValid;
      }
      if HasValidationWarnings(rest) {
        var i :| 0 <= i < |rest| && |rest[i].warnings| > 0;
        assert |results[i + 1].warnings| > 0;
      }
    }
  }

  /**
   * How the middleware ends: a JSON response, or `next()` with the results
   * attached. Each response the middleware writes has `success: false`.
   */
  datatype ClimateOutcome =
    | Responded(status: nat, success: bool, message: string, errors: seq<string>, warnings: Option<seq<string>>,
              validationResults: Option<seq<ValidationResult>>)
    | Proceed(attached: seq<ValidationResult>)

  const NoDocument := Responded(400, false, "No climate document provided", ["Climate risk document is required"], None, None)
  const InternalError := Responded(500, false, "Climate document validation failed due to internal error",
    ["Internal validation error"], None, None)

  /** The decision of `validateClimateDocument` for a request. */
  function ClimateDocumentOutcome(req: UploadRequest, config: ClimateConfig, utf8: seq<byte> -> string)
    : ClimateOutcome
  {
    if !HasUpload(req) then NoDocument
    else
      match AllFileResults(ExtractFiles(req), config, utf8)
      case None => InternalError
      case Some(results) =>
        if HasValidationErrors(results) then
          Responded(400, false, "Climate document validation failed",
            ErrorTexts(AllErrors(results)), Some(WarningTexts(AllWarnings(results))), Some(results))
        else Proceed(results)
  }

  /** `validateClimateDocument(config)` applied to a request. */
  method ValidateClimateDocument(req: UploadRequest, config: ClimateConfig, utf8: seq<byte> -> string)
    returns (outcome: ClimateOutcome)
    ensures outcome == ClimateDocumentOutcome(req, config, utf8)
  {
    if !HasUpload(req) {
      return NoDocument;
    }
    var files := ExtractFiles(req);
    var validationResults := ValidateAllFiles(files, config, utf8);
    if validationResults.None? {
      return InternalError;
    }
    if HasValidationErrors(validationResults.value) {
      var results := validationResults.value;
      return Responded(400, false, "Climate document validation failed",
        ErrorTexts(AllErrors(results)), Some(WarningTexts(AllWarnings(results))), Some(results));
    }
    return Proceed(validationResults.value);
  }

  /**
   * The middleware's decisions: no upload is a 400 before any validation; an
   * incomplete configuration with at least one file is a 500; otherwise it
   * rejects with 400 exactly when some file has an error, carrying every
   * error, and else continues with one result per file attached.
   */
  lemma ClimateDocumentDecisions(req: UploadRequest, config: ClimateConfig, utf8: seq<byte> -> string)
    ensures !HasUpload(req) ==> ClimateDocumentOutcome(req, config, utf8) == NoDocument
    ensures HasUpload(req) && ExtractFiles(req) != [] && !Complete(config) ==>
      ClimateDocumentOutcome(req, config, utf8) == InternalError
    ensures HasUpload(req) && Complete(config) ==>
      var files := ExtractFiles(req);
      AllFileResults(files, config, utf8).Some? &&
      var results := AllFileResults(files, config, utf8).value;
      match ClimateDocumentOutcome(req, config, utf8)
      case Responded(status, success, _, errors, _, _) =>
        status == 400 && !success && errors == ErrorTexts(AllErrors(results)) && errors != []
      case Proceed(attached) =>
        attached == results && |attached| == |files| && AllErrors(results) == []
  {
    var files := ExtractFiles(req);
    AllFileResultsShape(files, config, utf8);
    if HasUpload(req) && Complete(config) {
      var results := AllFileResults(files, config, utf8).value;
      forall i | 0 <= i < |results| ensures results[i].isValid <==> results[i].errors == [] {
        ClimateFileValidity(files[i], config, utf8);
      }
      FlattenedFindings(results);
    }
  }
}
