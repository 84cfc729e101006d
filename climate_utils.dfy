/**
 * Per-file steps of the climate validation (src/middleware/climateValidationUtils.ts):
 * metadata, the kind check, the size check and the suspicious-name warning.
 * Request extraction is `Uploads.ExtractFiles`, shared with the other copies.
 */
module ClimateUtils {
  import opened Maybe
  import opened Text
  import opened FileUtils
  import opened Uploads
  import opened ClimateTypes
  import opened ClimateHelpers

  /** The kind a name maps to through its lower-cased extension. */
  function KindOf(originalName: string): ClimateFileType {
    FileTypeFromExtension(Lower(FileExtension(originalName)))
  }

  /** A name is of a kind other than `txt` only when it carries that kind's extension, in any case. */
  lemma KindOfNonTxt(originalName: string)
    ensures KindOf(originalName) != Txt ==>
      EndsWith(Lower(originalName), DottedExtension(KindOf(originalName)))
  {
    var t := KindOf(originalName);
    FileExtensionShape(originalName);
    if t != Txt {
      ExtensionIsSuffix(originalName, TypeName(t));
    }
  }

  /** `extractBasicMetadata` without the upload timestamp. */
  function ExtractBasicMetadata(file: UploadedFile): (m: DocumentMetadata)
    ensures m.fileName == file.originalName && m.fileSize == file.size && m.mimeType == file.mimeType
    ensures m.fileType == KindOf(file.originalName)
  {
    DocumentMetadata(file.originalName, KindOf(file.originalName), file.size, file.mimeType)
  }

  function UnsupportedFileType(t: ClimateFileType): ValidationError {
    ValidationError("UNSUPPORTED_FILE_TYPE",
      "File type " + TypeName(t) + " is not supported for climate risk documents", SeverityError,
      "Please upload a PDF, CSV, TXT, DOCX, or XLSX file")
  }

  function FileTooLarge(t: ClimateFileType, maxSize: nat): ValidationError {
    ValidationError("FILE_TOO_LARGE",
      UpperTypeName(t) + " file exceeds maximum size of " + FormatBytes(maxSize), SeverityError,
      "Please compress the file or split it into smaller parts")
  }

  const SuspiciousFile := ValidationWarning("SUSPICIOUS_FILE",
    "File has characteristics that may indicate it is not a climate risk document", SeverityWarning,
    "Please verify this is a legitimate climate risk document")

  /** Every kind the map can produce passes `isSupportedClimateFileType`. */
  lemma EveryKindSupported(t: ClimateFileType)
    ensures IsSupportedClimateFileType(TypeName(t))
  {
    SupportedIffKindName(TypeName(t));
  }

  /**
   * `validateFileType`: the mapped kind, or `None` after an
   * UNSUPPORTED_FILE_TYPE error when the kind is not supported.
   */
  method ValidateFileType(file: UploadedFile, findings: Findings) returns (fileType: Option<ClimateFileType>)
    modifies findings
    ensures var t := KindOf(file.originalName);
      && fileType == (if IsSupportedClimateFileType(TypeName(t)) then Some(t) else None)
      && findings.errors
         == old(findings.errors) + (if IsSupportedClimateFileType(TypeName(t)) then [] else [UnsupportedFileType(t)])
    ensures findings.warnings == old(findings.warnings)
  {
    var t := FileTypeFromExtension(Lower(FileExtension(file.originalName)));
    if !IsSupportedClimateFileType(TypeName(t)) {
      findings.AddError(UnsupportedFileType(t));
      return None;
    }
    return Some(t);
  }

  /**
   * `validateFileSize`: FILE_TOO_LARGE when the size is above the kind's
   * limit. `threw` is set when the configuration lacks a section, in which
   * case the lookup throws before anything is recorded.
   */
  method ValidateFileSize(file: UploadedFile, t: ClimateFileType, config: ClimateConfig, findings: Findings)
    returns (threw: bool)
    modifies findings
    ensures threw <==> !Complete(config)
    ensures findings.errors == old(findings.errors) +
      (if !threw && file.size > MaxSizeForFileType(t, config).value
       then [FileTooLarge(t, MaxSizeForFileType(t, config).value)] else [])
    ensures findings.warnings == old(findings.warnings)
  {
    var maxSize := MaxSizeForFileType(t, config);
    if maxSize.None? {
      return true;
    }
    if file.size > maxSize.value {
      findings.AddError(FileTooLarge(t, maxSize.value));
    }
    return false;
  }

  /** `checkSuspiciousFile`: one SUSPICIOUS_FILE warning for a suspicious name, never an error. */
  method CheckSuspiciousFile(file: UploadedFile, findings: Findings)
    modifies findings
    ensures findings.warnings
         == old(findings.warnings) + (if IsSuspiciousClimateFile(file.originalName) then [SuspiciousFile] else [])
    ensures findings.errors == old(findings.errors)
  {
    if IsSuspiciousClimateFile(file.originalName) {
      findings.AddWarning(SuspiciousFile);
    }
  }
}
