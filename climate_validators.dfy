/**
 * The five structural validators (src/validation/climateValidationValidators.ts).
 * Each runs its checks on the file's bytes and turns an exception into one
 * `{KIND}_VALIDATION_ERROR`. The only exception these checks can raise is the
 * `TypeError` of reading a missing buffer; decoding bytes as UTF-8 is the
 * parameter `utf8`, which never fails.
 */
module ClimateValidators {
  import opened Maybe
  import opened Text
  import opened Encoding
  import opened Uploads
  import opened ClimateTypes
  import opened ClimateHelpers

  /** The message V8 gives the `TypeError` of calling `toString` on `undefined`. */
  const MissingBufferMessage: string := "Cannot read properties of undefined (reading 'toString')"

  /** The error a validator records when its checks throw `message`. */
  function ValidationFailure(t: ClimateFileType, message: string): (e: ValidationError)
    ensures e.code == UpperTypeName(t) + "_VALIDATION_ERROR"
    ensures EndsWith(e.message, ": " + message)
  {
    var what := if t == Txt then "text file" else UpperTypeName(t);
    var doc := if t == Txt then "text" else UpperTypeName(t);
    var m := "Failed to validate " + what + " structure: " + message;
    assert m[|m| - |": " + message|..] == ": " + message;
    ValidationError(UpperTypeName(t) + "_VALIDATION_ERROR", m,
      SeverityError, "Please ensure the file is a valid " + doc + " document")
  }

  /** Errors of `validatePDFBasicStructure`: the password scan runs only after a good header. */
  function PdfStructureErrors(buffer: Option<seq<byte>>): seq<ValidationError> {
    match buffer
    case None => [ValidationFailure(Pdf, MissingBufferMessage)]
    case Some(b) =>
      if !PdfHeaderOk(b) then [InvalidPdfFormat]
      else if MentionsEncrypt(b) then [PasswordProtectedPdf]
      else []
  }

  /** Errors of `validateCSVBasicStructure`. */
  function CsvStructureErrors(buffer: Option<seq<byte>>, utf8: seq<byte> -> string): seq<ValidationError> {
    match buffer
    case None => [ValidationFailure(Csv, MissingBufferMessage)]
    case Some(b) => if |CsvLines(utf8(b))| == 0 then [EmptyCsv] else []
  }

  /** Warnings of `validateCSVBasicStructure`. */
  function CsvStructureWarnings(buffer: Option<seq<byte>>, utf8: seq<byte> -> string): seq<ValidationWarning> {
    match buffer
    case None => []
    case Some(b) => if |CsvLines(utf8(b))| == 1 then [CsvMinimalData] else []
  }

  /** Errors of `validateTXTBasicStructure`. */
  function TxtStructureErrors(buffer: Option<seq<byte>>, utf8: seq<byte> -> string): seq<ValidationError> {
    match buffer
    case None => [ValidationFailure(Txt, MissingBufferMessage)]
    case Some(b) => if utf8(b) == [] then [EmptyTxt] else []
  }

  /** Warnings of `validateTXTBasicStructure`. */
  function TxtStructureWarnings(buffer: Option<seq<byte>>, utf8: seq<byte> -> string): seq<ValidationWarning> {
    match buffer
    case None => []
    case Some(b) => if utf8(b) != [] && JsLength(utf8(b)) < 50 then [TxtTooShort] else []
  }

  /** Errors of `validateDOCXBasicStructure` and `validateXLSXBasicStructure`. */
  function ZipStructureErrors(t: ClimateFileType, buffer: Option<seq<byte>>): seq<ValidationError>
    requires t == Docx || t == Xlsx
  {
    match buffer
    case None => [ValidationFailure(t, MissingBufferMessage)]
    case Some(b) => if ZipHeaderOk(b) then [] else [if t == Docx then InvalidDocxFormat else InvalidXlsxFormat]
  }

  /** The errors the validator of kind `t` appends. */
  function StructureErrors(t: ClimateFileType, buffer: Option<seq<byte>>, utf8: seq<byte> -> string)
    : seq<ValidationError>
  {
    match t
    case Pdf => PdfStructureErrors(buffer)
    case Csv => CsvStructureErrors(buffer, utf8)
    case Txt => TxtStructureErrors(buffer, utf8)
    case Docx => ZipStructureErrors(Docx, buffer)
    case Xlsx => ZipStructureErrors(Xlsx, buffer)
  }

  /** The warnings the validator of kind `t` appends; only CSV and TXT have any. */
  function StructureWarnings(t: ClimateFileType, buffer: Option<seq<byte>>, utf8: seq<byte> -> string)
    : seq<ValidationWarning>
  {
    match t
    case Csv => CsvStructureWarnings(buffer, utf8)
    case Txt => TxtStructureWarnings(buffer, utf8)
    case _ => []
  }

  /** `validatePDFBasicStructure`. */
  method ValidatePdfBasicStructure(file: UploadedFile, findings: Findings)
    modifies findings
    ensures findings.errors == old(findings.errors) + PdfStructureErrors(file.buffer)
    ensures findings.warnings == old(findings.warnings)
  {
    match file.buffer
    case None =>
      findings.AddError(ValidationFailure(Pdf, MissingBufferMessage));
    case Some(buffer) =>
      var ok := CheckPdfHeader(buffer, findings);
      if ok {
        CheckPdfPasswordProtection(buffer, findings);
      }
  }

  /** `validateCSVBasicStructure`. */
  method ValidateCsvBasicStructure(file: UploadedFile, findings: Findings, utf8: seq<byte> -> string)
    modifies findings
    ensures findings.errors == old(findings.errors) + CsvStructureErrors(file.buffer, utf8)
    ensures findings.warnings == old(findings.warnings) + CsvStructureWarnings(file.buffer, utf8)
  {
    match file.buffer
    case None =>
      findings.AddError(ValidationFailure(Csv, MissingBufferMessage));
    case Some(buffer) =>
      CheckCsvContent(utf8(buffer), findings);
  }

  /** `validateTXTBasicStructure`. */
  method ValidateTxtBasicStructure(file: UploadedFile, findings: Findings, utf8: seq<byte> -> string)
    modifies findings
    ensures findings.errors == old(findings.errors) + TxtStructureErrors(file.buffer, utf8)
    ensures findings.warnings == old(findings.warnings) + TxtStructureWarnings(file.buffer, utf8)
  {
    match file.buffer
    case None =>
      findings.AddError(ValidationFailure(Txt, MissingBufferMessage));
    case Some(buffer) =>
      CheckTxtContent(utf8(buffer), findings);
  }

  /** `validateDOCXBasicStructure`. */
  method ValidateDocxBasicStructure(file: UploadedFile, findings: Findings)
    modifies findings
    ensures findings.errors == old(findings.errors) + ZipStructureErrors(Docx, file.buffer)
    ensures findings.warnings == old(findings.warnings)
  {
    match file.buffer
    case None =>
      findings.AddError(ValidationFailure(Docx, MissingBufferMessage));
    case Some(buffer) =>
      CheckDocxHeader(buffer, findings);
  }

  /** `validateXLSXBasicStructure`. */
  method ValidateXlsxBasicStructure(file: UploadedFile, findings: Findings)
    modifies findings
    ensures findings.errors == old(findings.errors) + ZipStructureErrors(Xlsx, file.buffer)
    ensures findings.warnings == old(findings.warnings)
  {
    match file.buffer
    case None =>
      findings.AddError(ValidationFailure(Xlsx, MissingBufferMessage));
    case Some(buffer) =>
      CheckXlsxHeader(buffer, findings);
  }

  /** Calling the validator of kind `t`, as the validation map does. */
  method RunValidator(t: ClimateFileType, file: UploadedFile, findings: Findings, utf8: seq<byte> -> string)
    modifies findings
    ensures findings.errors == old(findings.errors) + StructureErrors(t, file.buffer, utf8)
    ensures findings.warnings == old(findings.warnings) + StructureWarnings(t, file.buffer, utf8)
  {
    match t
    case Pdf => ValidatePdfBasicStructure(file, findings);
    case Csv => ValidateCsvBasicStructure(file, findings, utf8);
    case Txt => ValidateTxtBasicStructure(file, findings, utf8);
    case Docx => ValidateDocxBasicStructure(file, findings);
    case Xlsx => ValidateXlsxBasicStructure(file, findings);
  }

  /**
   * A validator adds at most one entry in all, and a thrown exception becomes
   * exactly one error naming the kind and carrying the exception's text.
   */
  lemma AtMostOneFinding(t: ClimateFileType, buffer: Option<seq<byte>>, utf8: seq<byte> -> string)
    ensures |StructureErrors(t, buffer, utf8)| + |StructureWarnings(t, buffer, utf8)| <= 1
    ensures buffer.None? ==>
      StructureErrors(t, buffer, utf8) == [ValidationFailure(t, MissingBufferMessage)]
      && StructureWarnings(t, buffer, utf8) == []
  {
  }

  /**
   * A PDF without the "%PDF" header is reported as such and never as
   * password protected; with the header, "/Encrypt" in the first kilobyte
   * gives exactly the password error.
   */
  lemma PdfFindings(b: seq<byte>)
    ensures !PdfHeaderOk(b) ==> PdfStructureErrors(Some(b)) == [InvalidPdfFormat]
    ensures PdfHeaderOk(b) && MentionsEncrypt(b) ==> PdfStructureErrors(Some(b)) == [PasswordProtectedPdf]
    ensures PasswordProtectedPdf in PdfStructureErrors(Some(b)) ==> PdfHeaderOk(b)
  {
  }

  /** A CSV is reported empty exactly when its decoded text is only whitespace. */
  lemma CsvEmptyIffWhitespace(b: seq<byte>, utf8: seq<byte> -> string)
    ensures EmptyCsv in CsvStructureErrors(Some(b), utf8) <==> AllWhitespace(utf8(b))
  {
    CsvEmptyIffBlank(utf8(b));
  }
}
