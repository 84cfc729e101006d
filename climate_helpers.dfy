/**
 * Checks and lookups behind the climate-document validation
 * (src/validation/climateValidationHelpers.ts): byte-level sniffing of PDF and
 * ZIP headers, the CSV and text heuristics, the extension-to-kind map, the
 * per-kind size limit and the suspicious-name test.
 */
module ClimateHelpers {
  import opened Maybe
  import opened Text
  import opened Encoding
  import opened FileUtils
  import opened ClimateTypes

  const InvalidPdfFormat := ValidationError("INVALID_PDF_FORMAT",
    "File does not appear to be a valid PDF document", SeverityError,
    "Please ensure the file is a valid PDF document")
  const PasswordProtectedPdf := ValidationError("PASSWORD_PROTECTED_PDF",
    "PDF file is password protected and cannot be processed", SeverityError,
    "Please provide an unprotected PDF version")
  const EmptyCsv := ValidationError("EMPTY_CSV", "CSV file is empty", SeverityError,
    "Please provide a CSV file with data")
  const CsvMinimalData := ValidationWarning("CSV_MINIMAL_DATA",
    "CSV file has minimal data (only header or single row)", SeverityWarning,
    "Ensure the CSV contains sufficient data for analysis")
  const EmptyTxt := ValidationError("EMPTY_TXT", "Text file is empty", SeverityError,
    "Please provide a text file with content")
  const TxtTooShort := ValidationWarning("TXT_TOO_SHORT", "Text file appears to be very short",
    SeverityWarning, "Ensure the document contains sufficient content for analysis")
  const InvalidDocxFormat := ValidationError("INVALID_DOCX_FORMAT",
    "File does not appear to be a valid DOCX document", SeverityError,
    "Please ensure the file is a valid DOCX document")
  const InvalidXlsxFormat := ValidationError("INVALID_XLSX_FORMAT",
    "File does not appear to be a valid XLSX document", SeverityError,
    "Please ensure the file is a valid XLSX document")

  /** The PDF file header (section 7.5.2 of ISO 32000-1) starts with "%PDF". */
  predicate PdfHeaderOk(buffer: seq<byte>) {
    AsciiPrefix(buffer, 4) == "%PDF"
  }

  /** The buffer's first 1024 bytes, read as ASCII, contain "/Encrypt". */
  predicate MentionsEncrypt(buffer: seq<byte>) {
    Contains(AsciiPrefix(buffer, 1024), "/Encrypt")
  }

  /**
   * A ZIP container begins with the local file header signature (section
   * 4.3.7 of PKWARE's APPNOTE.TXT), whose first two bytes read "PK".
   */
  predicate ZipHeaderOk(buffer: seq<byte>) {
    AsciiPrefix(buffer, 2) == "PK"
  }

  /**
   * The header test in bytes: at least four bytes, which with the high bit
   * cleared are 0x25 0x50 0x44 0x46. Shorter buffers always fail.
   */
  lemma PdfHeaderBytes(buffer: seq<byte>)
    ensures PdfHeaderOk(buffer) <==>
      && |buffer| >= 4
      && buffer[0] as int % 128 == 0x25 && buffer[1] as int % 128 == 0x50
      && buffer[2] as int % 128 == 0x44 && buffer[3] as int % 128 == 0x46
  {
    AsciiPrefixIs(buffer, "%PDF");
  }

  /** The ZIP test in bytes: at least two bytes, 0x50 0x4B with the high bit cleared. */
  lemma ZipHeaderBytes(buffer: seq<byte>)
    ensures ZipHeaderOk(buffer) <==>
      |buffer| >= 2 && buffer[0] as int % 128 == 0x50 && buffer[1] as int % 128 == 0x4B
  {
    AsciiPrefixIs(buffer, "PK");
  }

  /** Bytes after offset 1024 never decide whether a PDF counts as encrypted. */
  lemma EncryptScanStopsAt1024(buffer: seq<byte>, rest: seq<byte>)
    requires |buffer| >= 1024
    ensures MentionsEncrypt(buffer + rest) == MentionsEncrypt(buffer)
  {
    assert (buffer + rest)[..1024] == buffer[..1024];
  }

  /** `checkPDFHeader`: reports a bad header once and says whether it was good. */
  method CheckPdfHeader(buffer: seq<byte>, findings: Findings) returns (ok: bool)
    modifies findings
    ensures ok == PdfHeaderOk(buffer)
    ensures findings.errors == old(findings.errors) + (if ok then [] else [InvalidPdfFormat])
    ensures findings.warnings == old(findings.warnings)
  {
    if AsciiPrefix(buffer, 4) != "%PDF" {
      findings.AddError(InvalidPdfFormat);
      return false;
    }
    return true;
  }

  /** `checkPDFPasswordProtection`: one error when "/Encrypt" appears early enough. */
  method CheckPdfPasswordProtection(buffer: seq<byte>, findings: Findings)
    modifies findings
    ensures findings.errors
         == old(findings.errors) + (if MentionsEncrypt(buffer) then [PasswordProtectedPdf] else [])
    ensures findings.warnings == old(findings.warnings)
  {
    var content := AsciiPrefix(buffer, if 1024 < |buffer| then 1024 else |buffer|);
    assert content == AsciiPrefix(buffer, 1024);
    if Contains(content, "/Encrypt") {
      findings.AddError(PasswordProtectedPdf);
    }
  }

  /** A line counts when it holds a character that is not whitespace. */
  predicate IsDataLine(line: string) {
    !AllWhitespace(line)
  }

  /** That is the filter's own test: something is left of the line after `trim()`. */
  lemma DataLineIffTrimmedNonEmpty(line: string)
    ensures IsDataLine(line) <==> JsLength(Trim(line)) > 0
  {
    var t := Trim(line);
    assert JsLength(t) == 0 <==> t == [];
  }

  /** `lines.filter(line => line.trim().length > 0)`. */
  function DataLines(lines: seq<string>): seq<string>
    decreases |lines|
  {
    if lines == [] then []
    else if IsDataLine(lines[0]) then [lines[0]] + DataLines(lines[1..])
    else DataLines(lines[1..])
  }

  /**
   * The filter keeps only data lines of the input, and leaves nothing
   * exactly when every line is blank.
   */
  lemma {:induction false} DataLinesFilter(lines: seq<string>)
    ensures forall l :: l in DataLines(lines) ==> l in lines && IsDataLine(l)
    ensures DataLines(lines) == [] <==> forall i :: 0 <= i < |lines| ==> AllWhitespace(lines[i])
    decreases |lines|
  {
    if lines != [] {
      var rest := lines[1..];
      DataLinesFilter(rest);
      if DataLines(lines) == [] {
        forall i | 0 <= i < |lines| ensures AllWhitespace(lines[i]) {
          if i > 0 {
            assert lines[i] == rest[i - 1];
          }
        }
      }
      if forall i :: 0 <= i < |lines| ==> AllWhitespace(lines[i]) {
        forall i | 0 <= i < |rest| ensures AllWhitespace(rest[i]) {
          assert rest[i] == lines[i + 1];
        }
      }
    }
  }

  /** The non-blank lines of a CSV text. */
  function CsvLines(content: string): seq<string> {
    DataLines(Split(content, '\n'))
  }

  /** Joining whitespace-only pieces with a whitespace separator gives whitespace, and only they do. */
  lemma {:induction false} JoinAllWhitespace(parts: seq<string>, sep: char)
    requires IsJsWhitespace(sep)
    ensures AllWhitespace(Join(parts, sep)) <==> forall i :: 0 <= i < |parts| ==> AllWhitespace(parts[i])
    decreases |parts|
  {
    if |parts| > 1 {
      var tail := Join(parts[1..], sep);
      JoinAllWhitespace(parts[1..], sep);
      var s := parts[0] + [sep] + tail;
      AllWhitespaceSplit(s, |parts[0]|);
      assert s[..|parts[0]|] == parts[0];
      AllWhitespaceSplit(s[|parts[0]|..], 1);
      assert s[|parts[0]|..][1..] == tail;
      assert forall i :: 1 <= i < |parts| ==> parts[i] == parts[1..][i - 1];
    }
  }

  /** A CSV has no data line exactly when the whole text is whitespace. */
  lemma CsvEmptyIffBlank(content: string)
    ensures CsvLines(content) == [] <==> AllWhitespace(content)
  {
    SplitJoin(content, '\n');
    JoinAllWhitespace(Split(content, '\n'), '\n');
    DataLinesFilter(Split(content, '\n'));
  }

  /** `checkCSVContent`: no data line is an error; a single one is a warning. */
  method CheckCsvContent(content: string, findings: Findings)
    modifies findings
    ensures findings.errors
         == old(findings.errors) + (if |CsvLines(content)| == 0 then [EmptyCsv] else [])
    ensures findings.warnings
         == old(findings.warnings) + (if |CsvLines(content)| == 1 then [CsvMinimalData] else [])
  {
    var lines := CsvLines(content);
    if |lines| == 0 {
      findings.AddError(EmptyCsv);
      return;
    }
    if |lines| < 2 {
      findings.AddWarning(CsvMinimalData);
    }
  }

  /** `checkTXTContent`: empty text is an error; fewer than 50 code units a warning. */
  method CheckTxtContent(content: string, findings: Findings)
    modifies findings
    ensures findings.errors == old(findings.errors) + (if content == [] then [EmptyTxt] else [])
    ensures findings.warnings
         == old(findings.warnings) + (if content != [] && JsLength(content) < 50 then [TxtTooShort] else [])
  {
    var length := JsLength(content);
    if length == 0 {
      findings.AddError(EmptyTxt);
      return;
    }
    if length < 50 {
      findings.AddWarning(TxtTooShort);
    }
  }

  /** `checkDOCXHeader`. */
  method CheckDocxHeader(buffer: seq<byte>, findings: Findings)
    modifies findings
    ensures findings.errors
         == old(findings.errors) + (if ZipHeaderOk(buffer) then [] else [InvalidDocxFormat])
    ensures findings.warnings == old(findings.warnings)
  {
    if AsciiPrefix(buffer, 2) != "PK" {
      findings.AddError(InvalidDocxFormat);
    }
  }

  /** `checkXLSXHeader`. */
  method CheckXlsxHeader(buffer: seq<byte>, findings: Findings)
    modifies findings
    ensures findings.errors
         == old(findings.errors) + (if ZipHeaderOk(buffer) then [] else [InvalidXlsxFormat])
    ensures findings.warnings == old(findings.warnings)
  {
    if AsciiPrefix(buffer, 2) != "PK" {
      findings.AddError(InvalidXlsxFormat);
    }
  }

  /** The dotted extension the map keys a document kind by. */
  function DottedExtension(t: ClimateFileType): string {
    "." + TypeName(t)
  }

  /**
   * `getFileTypeFromExtension` (and `mapExtensionToFileType`, which only
   * calls it): the five dotted extensions map to their kind, anything else
   * to `txt`.
   */
  function FileTypeFromExtension(extension: string): (t: ClimateFileType)
    ensures t != Txt ==> extension == DottedExtension(t)
  {
    if extension == ".pdf" then Pdf
    else if extension == ".csv" then Csv
    else if extension == ".txt" then Txt
    else if extension == ".docx" then Docx
    else if extension == ".xlsx" then Xlsx
    else Txt
  }

  /** Each kind's own extension maps back to it. */
  lemma FileTypeOfDottedExtension(t: ClimateFileType)
    ensures FileTypeFromExtension(DottedExtension(t)) == t
  {
    match t
    case Pdf => assert DottedExtension(t) == ".pdf";
    case Csv => assert DottedExtension(t) == ".csv";
    case Txt => assert DottedExtension(t) == ".txt";
    case Docx => assert DottedExtension(t) == ".docx";
    case Xlsx => assert DottedExtension(t) == ".xlsx";
  }

  /** An extension without a leading dot, "pdf" included, always maps to `txt`. */
  lemma UndottedIsTxt(extension: string)
    requires extension == [] || extension[0] != '.'
    ensures FileTypeFromExtension(extension) == Txt
  {
  }

  /** `isSupportedClimateFileType`. */
  predicate IsSupportedClimateFileType(fileType: string) {
    fileType in ["pdf", "csv", "txt", "docx", "xlsx"]
  }

  /** The supported names are exactly the names of the five kinds. */
  lemma SupportedIffKindName(fileType: string)
    ensures IsSupportedClimateFileType(fileType) <==> exists t :: TypeName(t) == fileType
  {
    if IsSupportedClimateFileType(fileType) {
      if fileType == "pdf" { assert TypeName(Pdf) == fileType; }
      else if fileType == "csv" { assert TypeName(Csv) == fileType; }
      else if fileType == "txt" { assert TypeName(Txt) == fileType; }
      else if fileType == "docx" { assert TypeName(Docx) == fileType; }
      else { assert TypeName(Xlsx) == fileType; }
    }
  }

  const DefaultMaxFileSize: nat := 10 * 1024 * 1024

  /**
   * `getMaxSizeForFileType`: the section's limit, or 10 MiB when it is 0.
   * Building the lookup table reads all five sections, so one missing section
   * makes the call throw (`None`) whatever the kind asked for.
   */
  function MaxSizeForFileType(t: ClimateFileType, config: ClimateConfig): (r: Option<nat>)
    ensures r.Some? <==> Complete(config)
    ensures r.Some? ==> r.value > 0
    ensures r.Some? && Section(config, t).value.maxFileSize > 0 ==> r.value == Section(config, t).value.maxFileSize
    ensures r.Some? && Section(config, t).value.maxFileSize == 0 ==> r.value == DefaultMaxFileSize
  {
    if !Complete(config) then None
    else
      var configured := Section(config, t).value.maxFileSize;
      Some(if configured != 0 then configured else DefaultMaxFileSize)
  }

  const SourceCodeExtensions: seq<string> := ["py", "rb", "pl", "go", "rs", "cpp", "c", "h"]
  const MalwareKeywords: seq<string> :=
    ["malware", "virus", "trojan", "backdoor", "keylogger", "rootkit", "spyware", "adware", "ransomware"]

  /** `hasSuspiciousExtension`: an executable, shell-script or source-code suffix. */
  predicate HasSuspiciousExtension(fileName: string) {
    || EndsWithExtensionFrom(fileName, ExecutableExtensions)
    || EndsWithExtensionFrom(fileName, ShellExtensions)
    || EndsWithExtensionFrom(fileName, SourceCodeExtensions)
  }

  /** `hasSuspiciousName`: one of the nine keywords occurs in the name. */
  predicate HasSuspiciousName(fileName: string) {
    exists k :: k in MalwareKeywords && Contains(fileName, k)
  }

  /** `isSuspiciousClimateFile`, applied to the file's original name. */
  predicate IsSuspiciousClimateFile(originalName: string) {
    var fileName := Lower(originalName);
    HasSuspiciousExtension(fileName) || HasSuspiciousName(fileName)
  }

  lemma EndsWithExtensionFromAppend(name: string, a: seq<string>, b: seq<string>)
    ensures EndsWithExtensionFrom(name, a + b)
        <==> EndsWithExtensionFrom(name, a) || EndsWithExtensionFrom(name, b)
  {
  }

  /** The three suffix lists hold plain lower-case extensions without dots. */
  lemma ExecutablesArePlain()
    ensures forall e :: e in ExecutableExtensions ==> '.' !in e && IsLower(e)
  {
  }

  lemma ShellScriptsArePlain()
    ensures forall e :: e in ShellExtensions ==> '.' !in e && IsLower(e)
  {
  }

  lemma SourceCodeIsPlain()
    ensures forall e :: e in SourceCodeExtensions ==> '.' !in e && IsLower(e)
  {
  }

  /**
   * The suffix patterns are an extension test: a name is suspicious by
   * extension exactly when its `getFileExtension` is one of the listed ones.
   */
  lemma ClimateSuspiciousByExtension(originalName: string)
    ensures HasSuspiciousExtension(Lower(originalName)) <==>
      HasDangerousExtension(FileExtension(originalName),
        ExecutableExtensions + ShellExtensions + SourceCodeExtensions)
  {
    var all := ExecutableExtensions + ShellExtensions + SourceCodeExtensions;
    var low := Lower(originalName);
    LowerFacts(originalName);
    FileExtensionShape(originalName);
    ExecutablesArePlain();
    ShellScriptsArePlain();
    SourceCodeIsPlain();
    DangerousExtensionIsSuffix(originalName, all);
    EndsWithExtensionFromAppend(originalName, ExecutableExtensions + ShellExtensions, SourceCodeExtensions);
    EndsWithExtensionFromAppend(originalName, ExecutableExtensions, ShellExtensions);
    assert EndsWithExtensionFrom(low, ExecutableExtensions) == EndsWithExtensionFrom(originalName, ExecutableExtensions);
    assert EndsWithExtensionFrom(low, ShellExtensions) == EndsWithExtensionFrom(originalName, ShellExtensions);
    assert EndsWithExtensionFrom(low, SourceCodeExtensions) == EndsWithExtensionFrom(originalName, SourceCodeExtensions);
  }

  /** Upper- and lower-case spellings of a name are equally suspicious. */
  lemma ClimateSuspiciousIgnoresCase(originalName: string)
    ensures IsSuspiciousClimateFile(originalName) == IsSuspiciousClimateFile(Lower(originalName))
  {
    LowerFacts(originalName);
  }
}
