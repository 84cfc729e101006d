/**
 * The records of the climate-document validation (src/types/climateValidation.ts)
 * and the pair of lists every check appends to.
 */
module ClimateTypes {
  import opened Maybe

  datatype ErrorSeverity = SeverityError | SeverityCritical
  datatype WarningSeverity = SeverityWarning | SeverityInfo

  /** `ClimateValidationError`; the optional field, line and column are never set here. */
  datatype ValidationError = ValidationError(
    code: string, message: string, severity: ErrorSeverity, suggestion: string)

  /** `ClimateValidationWarning`. */
  datatype ValidationWarning = ValidationWarning(
    code: string, message: string, severity: WarningSeverity, suggestion: string)

  /** The five document kinds, `'pdf' | 'csv' | 'txt' | 'docx' | 'xlsx'`. */
  datatype ClimateFileType = Pdf | Csv | Txt | Docx | Xlsx

  /** The string the source uses for a document kind. */
  function TypeName(t: ClimateFileType): string {
    match t
    case Pdf => "pdf"
    case Csv => "csv"
    case Txt => "txt"
    case Docx => "docx"
    case Xlsx => "xlsx"
  }

  /** `fileType.toUpperCase()`. */
  function UpperTypeName(t: ClimateFileType): string {
    match t
    case Pdf => "PDF"
    case Csv => "CSV"
    case Txt => "TXT"
    case Docx => "DOCX"
    case Xlsx => "XLSX"
  }

  /** `ClimateDocumentMetadata` without its upload timestamp. */
  datatype DocumentMetadata = DocumentMetadata(
    fileName: string, fileType: ClimateFileType, fileSize: nat, mimeType: string)

  /** `ClimateValidationResult`. */
  datatype ValidationResult = ValidationResult(
    isValid: bool,
    errors: seq<ValidationError>,
    warnings: seq<ValidationWarning>,
    metadata: DocumentMetadata)

  /** One `*Validation` section of the configuration. */
  datatype SectionConfig = SectionConfig(enabled: bool, maxFileSize: nat)

  /**
   * `ClimateFileValidationConfig`; a section is `None` when the configuration
   * object lacks it, in which case reading its limit throws a `TypeError`.
   */
  datatype ClimateConfig = ClimateConfig(
    pdfValidation: Option<SectionConfig>,
    csvValidation: Option<SectionConfig>,
    txtValidation: Option<SectionConfig>,
    docxValidation: Option<SectionConfig>,
    xlsxValidation: Option<SectionConfig>)

  /** Every section is present. */
  predicate Complete(config: ClimateConfig) {
    && config.pdfValidation.Some? && config.csvValidation.Some? && config.txtValidation.Some?
    && config.docxValidation.Some? && config.xlsxValidation.Some?
  }

  /** The section for one document kind. */
  function Section(config: ClimateConfig, t: ClimateFileType): Option<SectionConfig> {
    match t
    case Pdf => config.pdfValidation
    case Csv => config.csvValidation
    case Txt => config.txtValidation
    case Docx => config.docxValidation
    case Xlsx => config.xlsxValidation
  }

  /**
   * The caller-owned `errors` and `warnings` arrays a validation run pushes
   * onto. Entries are only ever appended.
   */
  class Findings {
    var errors: seq<ValidationError>
    var warnings: seq<ValidationWarning>

    constructor ()
      ensures errors == [] && warnings == []
    {
      errors := [];
      warnings := [];
    }

    /** `errors.push(e)`. */
    method AddError(e: ValidationError)
      modifies this
      ensures errors == old(errors) + [e] && warnings == old(warnings)
    {
      errors := errors + [e];
    }

    /** `warnings.push(w)`. */
    method AddWarning(w: ValidationWarning)
      modifies this
      ensures warnings == old(warnings) + [w] && errors == old(errors)
    {
      warnings := warnings + [w];
    }
  }
}
