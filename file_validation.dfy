/**
 * Generic upload validation (src/validation/fileValidation.ts and its copy
 * in src/middleware/upload.ts): per-file size, MIME type and extension
 * errors, a file-count error, suspicious-name and empty-file warnings, and
 * the `validateFile` middleware that answers or passes the request on.
 *
 * The two copies differ only in the suspicious-name test they call, so the
 * model takes that test as a parameter and proves the copies agree when the
 * dangerous-extension list lies within the middleware's own patterns.
 */
module FileValidation {
  import opened Maybe
  import opened Text
  import opened FileUtils
  import opened Uploads
  import opened MulterConfig

  /** Which `isSuspiciousFileName` a copy calls. */
  datatype NameCheck =
    | LibraryCheck(dangerous: seq<string>)  // src/lib/fileUtils.ts, used by fileValidation.ts
    | MiddlewareCheck                        // the eight patterns of src/middleware/upload.ts

  predicate Suspicious(check: NameCheck, name: string) {
    match check
    case LibraryCheck(dangerous) => IsSuspiciousFileName(name, dangerous)
    case MiddlewareCheck => HasSuspiciousPattern(name)
  }

  /** `File ${index + 1} (${file.originalname})`, the head of every per-file message. */
  function FileLabel(index: nat, f: UploadedFile): (head: string)
    ensures StartsWith(head, "File ")
  {
    "File " + Decimal(index + 1) + " (" + f.originalName + ")"
  }

  const NoValidFiles: string := "No valid files provided"

  function CountError(maxFiles: nat, received: nat): string {
    "Too many files. Maximum allowed: " + Decimal(maxFiles) + ", received: " + Decimal(received)
  }

  /** A file passes all three per-file checks. */
  predicate Acceptable(f: UploadedFile, config: FileUploadConfig) {
    && f.size <= config.maxFileSize
    && f.mimeType in config.allowedMimeTypes
    && FileExtension(f.originalName) in config.allowedExtensions
  }

  function Flag(b: bool): nat { if b then 1 else 0 }

  /** Every message in the list starts with `p`. */
  predicate AllStartWith(msgs: seq<string>, p: string) {
    forall k :: 0 <= k < |msgs| ==> StartsWith(msgs[k], p)
  }

  lemma AllStartWithAppend(a: seq<string>, b: seq<string>, p: string)
    requires AllStartWith(a, p) && AllStartWith(b, p)
    ensures AllStartWith(a + b, p)
  {
    forall k | 0 <= k < |a + b| ensures StartsWith((a + b)[k], p) {
      if k < |a| { assert (a + b)[k] == a[k]; } else { assert (a + b)[k] == b[k - |a|]; }
    }
  }

  /** A message that starts with a file's label starts with "File ". */
  lemma LabelledMessages(msgs: seq<string>, index: nat, f: UploadedFile)
    requires AllStartWith(msgs, FileLabel(index, f))
    ensures AllStartWith(msgs, "File ")
  {
    var head := FileLabel(index, f);
    forall k | 0 <= k < |msgs| ensures StartsWith(msgs[k], "File ") {
      assert msgs[k][..|head|] == head;
      assert msgs[k][..5] == head[..5];
    }
  }

  /**
   * `validateIndividualFile`: one error for each failed check among size,
   * MIME type and extension, each naming the file by its 1-based position.
   */
  function IndividualErrors(f: UploadedFile, index: nat, config: FileUploadConfig): (errors: seq<string>)
    ensures AllStartWith(errors, FileLabel(index, f))
  {
    var lbl := FileLabel(index, f);
    var ext := FileExtension(f.originalName);
    var size := if f.size > config.maxFileSize
      then [lbl + " exceeds maximum size of " + FormatBytes(config.maxFileSize)] else [];
    var mime := if f.mimeType !in config.allowedMimeTypes
      then [lbl + " has unsupported MIME type: " + f.mimeType] else [];
    var extension := if ext !in config.allowedExtensions
      then [lbl + " has unsupported extension: " + ext] else [];
    AllStartWithAppend(size, mime, lbl);
    AllStartWithAppend(size + mime, extension, lbl);
    size + mime + extension
  }

  /** A file gets no error exactly when it is acceptable, and one error per failed check. */
  lemma IndividualErrorsCount(f: UploadedFile, index: nat, config: FileUploadConfig)
    ensures IndividualErrors(f, index, config) == [] <==> Acceptable(f, config)
    ensures |IndividualErrors(f, index, config)| == Flag(f.size > config.maxFileSize)
      + Flag(f.mimeType !in config.allowedMimeTypes)
      + Flag(FileExtension(f.originalName) !in config.allowedExtensions)
  {
  }

  /** The warnings the loop adds for one file: a suspicious name, then an empty file. */
  function FileWarnings(f: UploadedFile, index: nat, check: NameCheck): (warnings: seq<string>)
    ensures AllStartWith(warnings, FileLabel(index, f))
  {
    var lbl := FileLabel(index, f);
    var suspicious := if Suspicious(check, f.originalName) then [lbl + " has a suspicious name"] else [];
    var empty := if f.size == 0 then [lbl + " is empty"] else [];
    AllStartWithAppend(suspicious, empty, lbl);
    suspicious + empty
  }

  /** A file gets no warning exactly when its name is not suspicious and it is not empty. */
  lemma FileWarningsCount(f: UploadedFile, index: nat, check: NameCheck)
    ensures FileWarnings(f, index, check) == [] <==> !Suspicious(check, f.originalName) && f.size != 0
    ensures |FileWarnings(f, index, check)| == Flag(Suspicious(check, f.originalName)) + Flag(f.size == 0)
  {
  }

  /** The per-file errors of all files, grouped by file in file order. */
  function AllFilesErrors(files: seq<UploadedFile>, config: FileUploadConfig): (errors: seq<string>)
    ensures AllStartWith(errors, "File ")
    decreases |files|
  {
    if files == [] then []
    else
      var n := |files| - 1;
      var last := IndividualErrors(files[n], n, config);
      LabelledMessages(last, n, files[n]);
      AllStartWithAppend(AllFilesErrors(files[..n], config), last, "File ");
      AllFilesErrors(files[..n], config) + last
  }

  /** No per-file error at all exactly when every file is acceptable. */
  lemma {:induction false} AllFilesErrorsEmpty(files: seq<UploadedFile>, config: FileUploadConfig)
    ensures AllFilesErrors(files, config) == [] <==> forall i :: 0 <= i < |files| ==> Acceptable(files[i], config)
    decreases |files|
  {
    if files != [] {
      var n := |files| - 1;
      var front, last := AllFilesErrors(files[..n], config), IndividualErrors(files[n], n, config);
      assert AllFilesErrors(files, config) == front + last;
      AppendEmpty(front, last);
      AllFilesErrorsEmpty(files[..n], config);
      IndividualErrorsCount(files[n], n, config);
      if front + last == [] {
        forall i | 0 <= i < |files| ensures Acceptable(files[i], config) {
          if i < n {
            assert files[..n][i] == files[i];
            assert Acceptable(files[..n][i], config);
          } else {
            assert i == n;
          }
        }
      } else if last == [] {
        var j :| 0 <= j < n && !Acceptable(files[..n][j], config);
        assert files[..n][j] == files[j];
      }
    }
  }

  /** The warnings of all files, grouped by file in file order. */
  function AllFilesWarnings(files: seq<UploadedFile>, check: NameCheck): seq<string>
    decreases |files|
  {
    if files == [] then []
    else
      var n := |files| - 1;
      AllFilesWarnings(files[..n], check) + FileWarnings(files[n], n, check)
  }

  /** No warning at all exactly when no file gets a warning of its own. */
  lemma {:induction false} AllFilesWarningsEmpty(files: seq<UploadedFile>, check: NameCheck)
    ensures AllFilesWarnings(files, check) == [] <==>
      forall i :: 0 <= i < |files| ==> FileWarnings(files[i], i, check) == []
    decreases |files|
  {
    if files != [] {
      var n := |files| - 1;
      var front, last := AllFilesWarnings(files[..n], check), FileWarnings(files[n], n, check);
      assert AllFilesWarnings(files, check) == front + last;
      AppendEmpty(front, last);
      AllFilesWarningsEmpty(files[..n], check);
      if front + last == [] {
        forall i | 0 <= i < |files| ensures FileWarnings(files[i], i, check) == [] {
          if i < n {
            assert files[..n][i] == files[i];
            assert FileWarnings(files[..n][i], i, check) == [];
          } else {
            assert i == n;
          }
        }
      } else {
        if last == [] {
          var j :| 0 <= j < n && FileWarnings(files[..n][j], j, check) != [];
          assert files[..n][j] == files[j];
        }
      }
    }
  }

  lemma AppendEmpty(a: seq<string>, b: seq<string>)
    ensures a + b == [] <==> a == [] && b == []
  {
    if a + b == [] {
      assert |a + b| == |a| + |b|;
    }
  }

  /** `validateFileCount`: one error when there are more files than allowed. */
  function CountErrors(files: seq<UploadedFile>, config: FileUploadConfig): seq<string> {
    if |files| > config.maxFiles then [CountError(config.maxFiles, |files|)] else []
  }

  /** A request whose files all pass: there is one, not too many, and each is acceptable. */
  predicate Admissible(files: seq<UploadedFile>, config: FileUploadConfig) {
    && files != []
    && |files| <= config.maxFiles
    && forall i :: 0 <= i < |files| ==> Acceptable(files[i], config)
  }

  /**
   * What `validateFiles` returns: with no file, the single "No valid files
   * provided" error and nothing else; otherwise the count error first, then
   * the per-file errors, with validity meaning "no error".
   */
  function FileValidationOf(files: seq<UploadedFile>, config: FileUploadConfig, check: NameCheck)
    : (r: FileValidationResult)
    ensures r.isValid <==> r.errors == []
    ensures files == [] ==> r.errors == [NoValidFiles] && r.warnings == []
    ensures files != [] ==> r.warnings == AllFilesWarnings(files, check)
    ensures |files| > config.maxFiles && files != [] ==>
      r.errors != [] && r.errors[0] == CountError(config.maxFiles, |files|)
  {
    if files == [] then FileValidationResult(false, [NoValidFiles], [])
    else
      var errors := CountErrors(files, config) + AllFilesErrors(files, config);
      FileValidationResult(errors == [], errors, AllFilesWarnings(files, check))
  }

  /** A result is valid exactly when there is a file, not too many, and each one is acceptable. */
  lemma ValidIffAdmissible(files: seq<UploadedFile>, config: FileUploadConfig, check: NameCheck)
    ensures FileValidationOf(files, config, check).isValid <==> Admissible(files, config)
  {
    AllFilesErrorsEmpty(files, config);
  }

  /**
   * The count error appears exactly when there are too many files: every
   * per-file message starts with "File ", never with "Too many files".
   */
  lemma CountErrorOnlyWhenTooMany(files: seq<UploadedFile>, config: FileUploadConfig, check: NameCheck)
    requires files != []
    ensures var r := FileValidationOf(files, config, check);
      (exists e :: e in r.errors && StartsWith(e, "Too many files")) <==> |files| > config.maxFiles
  {
    var r := FileValidationOf(files, config, check);
    if |files| > config.maxFiles {
      var e := CountError(config.maxFiles, |files|);
      assert e in r.errors && StartsWith(e, "Too many files");
    } else {
      var errors := AllFilesErrors(files, config);
      assert r.errors == errors;
      forall k | 0 <= k < |errors| ensures !StartsWith(errors[k], "Too many files") {
        var x := errors[k];
        assert x[..5] == "File ";
        assert x[0] == x[..5][0] == 'F';
        if |x| >= 14 {
          assert x[..14][0] == x[0];
        }
      }
    }
  }

  /**
   * Warnings never decide validity: the errors, and so the verdict, are the
   * same whichever suspicious-name test runs.
   */
  lemma WarningsNeverInvalidate(files: seq<UploadedFile>, config: FileUploadConfig, c1: NameCheck, c2: NameCheck)
    ensures FileValidationOf(files, config, c1).errors == FileValidationOf(files, config, c2).errors
    ensures FileValidationOf(files, config, c1).isValid == FileValidationOf(files, config, c2).isValid
  {
  }

  /**
   * The two copies agree: when every dangerous extension is a dot-free,
   * lower-case member of the middleware's pattern families, fileValidation.ts
   * and upload.ts return the same result for every list of files.
   */
  lemma {:induction false} CopiesAgree(files: seq<UploadedFile>, config: FileUploadConfig, dangerous: seq<string>)
    requires forall e :: e in dangerous ==> '.' !in e && IsLower(e)
    requires forall e :: e in dangerous ==>
      e in ExecutableExtensions || e in ShellExtensions || e in DatabaseExtensions || e in TemporaryExtensions
    ensures FileValidationOf(files, config, LibraryCheck(dangerous)) == FileValidationOf(files, config, MiddlewareCheck)
  {
    WarningCopiesAgree(files, dangerous);
  }

  lemma {:induction false} WarningCopiesAgree(files: seq<UploadedFile>, dangerous: seq<string>)
    requires forall e :: e in dangerous ==> '.' !in e && IsLower(e)
    requires forall e :: e in dangerous ==>
      e in ExecutableExtensions || e in ShellExtensions || e in DatabaseExtensions || e in TemporaryExtensions
    ensures AllFilesWarnings(files, LibraryCheck(dangerous)) == AllFilesWarnings(files, MiddlewareCheck)
    decreases |files|
  {
    if files != [] {
      var n := |files| - 1;
      WarningCopiesAgree(files[..n], dangerous);
      DangerousWithinPatterns(files[n].originalName, dangerous);
    }
  }

  /**
   * A file the Multer filter let through has no MIME-type or extension error:
   * the only per-file error it can still get is the size error.
   */
  lemma FilterAcceptedPassesTypeChecks(f: UploadedFile, index: nat, config: FileUploadConfig)
    requires FileFilter(f, config).Accept?
    ensures IndividualErrors(f, index, config) == [] <==> f.size <= config.maxFileSize
    ensures |IndividualErrors(f, index, config)| <= 1
  {
  }

  lemma AppendAssoc(a: seq<string>, b: seq<string>, c: seq<string>)
    ensures a + b + c == a + (b + c)
  {
  }

  /** Extending a prefix by one file appends that file's messages. */
  lemma PrefixStep(files: seq<UploadedFile>, i: nat, config: FileUploadConfig, check: NameCheck)
    requires i < |files|
    ensures AllFilesErrors(files[..i + 1], config) == AllFilesErrors(files[..i], config) + IndividualErrors(files[i], i, config)
    ensures AllFilesWarnings(files[..i + 1], check) == AllFilesWarnings(files[..i], check) + FileWarnings(files[i], i, check)
  {
    assert files[..i + 1][..i] == files[..i];
  }

  /** The caller-owned `errors` and `warnings` arrays the helpers push onto. */
  class MessageLists {
    var errors: seq<string>
    var warnings: seq<string>

    constructor()
      ensures errors == [] && warnings == []
    {
      errors := [];
      warnings := [];
    }
  }

  /** `validateFileCount`: pushes the count error when there are too many files. */
  method ValidateFileCount(files: seq<UploadedFile>, config: FileUploadConfig, lists: MessageLists)
    modifies lists
    ensures lists.errors == old(lists.errors) + CountErrors(files, config)
    ensures lists.warnings == old(lists.warnings)
  {
    if |files| > config.maxFiles {
      lists.errors := lists.errors + [CountError(config.maxFiles, |files|)];
    }
  }

  /** `validateAllFiles`: the `forEach` that pushes each file's errors and warnings. */
  method ValidateAllFiles(files: seq<UploadedFile>, config: FileUploadConfig, check: NameCheck, lists: MessageLists)
    modifies lists
    ensures lists.errors == old(lists.errors) + AllFilesErrors(files, config)
    ensures lists.warnings == old(lists.warnings) + AllFilesWarnings(files, check)
  {
    var errors, warnings := lists.errors, lists.warnings;
    for i := 0 to |files|
      invariant errors == old(lists.errors) + AllFilesErrors(files[..i], config)
      invariant warnings == old(lists.warnings) + AllFilesWarnings(files[..i], check)
    {
      PrefixStep(files, i, config, check);
      AppendAssoc(old(lists.errors), AllFilesErrors(files[..i], config), IndividualErrors(files[i], i, config));
      AppendAssoc(old(lists.warnings), AllFilesWarnings(files[..i], check), FileWarnings(files[i], i, check));
      errors := errors + IndividualErrors(files[i], i, config);
      warnings := warnings + FileWarnings(files[i], i, check);
    }
    assert files[..|files|] == files;
    lists.errors, lists.warnings := errors, warnings;
  }

  /** `validateFiles`: runs the checks on fresh lists and reports validity as "no error". */
  method ValidateFiles(files: seq<UploadedFile>, config: FileUploadConfig, check: NameCheck)
    returns (result: FileValidationResult)
    ensures result == FileValidationOf(files, config, check)
  {
    var lists := new MessageLists();
    if |files| == 0 {
      lists.errors := lists.errors + [NoValidFiles];
      return FileValidationResult(false, lists.errors, lists.warnings);
    }
    ValidateFileCount(files, config, lists);
    assert lists.errors == CountErrors(files, config);
    ValidateAllFiles(files, config, check, lists);
    assert lists.warnings == AllFilesWarnings(files, check);
    result := FileValidationResult(|lists.errors| == 0, lists.errors, lists.warnings);
    assert result.isValid == (lists.errors == []);
  }

  /** `handleValidationFailure`: the 400 body carrying both the errors and the warnings. */
  function FailureReply(result: FileValidationResult): (reply: Reply)
    ensures reply.status == 400 && !reply.success && reply.message == "File validation failed"
    ensures reply.errors == result.errors && reply.warnings == Some(result.warnings)
  {
    Reply(400, false, "File validation failed", result.errors, Some(result.warnings))
  }

  /**
   * The `validateFile` middleware of src/middleware/upload.ts: a request with
   * no upload is answered at once; otherwise the extracted files are
   * validated, a failure is answered with errors and warnings, and a success
   * (warnings or not) calls `next` once.
   */
  method ValidateFile(req: UploadRequest, config: FileUploadConfig) returns (o: Outcome)
    ensures !o.NextWithError?
    ensures o.Next? <==> HasUpload(req) && Admissible(ExtractFiles(req), config)
    ensures !HasUpload(req) ==> o == Respond(NoFileReply())
    ensures HasUpload(req) && !o.Next? ==>
      o == Respond(FailureReply(FileValidationOf(ExtractFiles(req), config, MiddlewareCheck)))
  {
    if !HasUpload(req) {
      return Respond(NoFileReply());
    }
    var files := ExtractFiles(req);
    ValidIffAdmissible(files, config, MiddlewareCheck);
    var result := ValidateFiles(files, config, MiddlewareCheck);
    if !result.isValid {
      return Respond(FailureReply(result));
    }
    return Next;
  }
}
