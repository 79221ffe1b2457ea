/** pdf/merger.go: validating an input path against a snapshot of the file
    system, and the merge protocol around the external `gs` process (count
    limits, validation in list order, progress callback before and after,
    removal of the output on failure, confirmation that the output exists). */
module Merger {
  import opened Text

  const MinInputs := 2
  const MaxInputs := 100

  datatype Option<T> = None | Some(value: T)

  /** The errors ValidatePDF and MergePDFs return; each carries what its message names. */
  datatype Error =
    | NotExist(path: string)                      // "file does not exist: <path>"
    | NotPdf(name: string)                        // "file is not a PDF: <base name>"
    | TooFewInputs                                // "at least 2 PDF files are required for merging"
    | TooManyInputs                               // "maximum 100 PDF files allowed"
    | MergeFailed(cause: string, output: string)  // "failed to merge PDFs: <cause>\nOutput: <output>"
    | OutputNotCreated                            // "merge completed but output file was not created"

  /** Go's `error` result: nil, or an error value. */
  datatype Outcome = Ok | Fail(error: Error)

  /** The text of each error, as the source formats it. */
  function Message(e: Error): string {
    match e
    case NotExist(path) => "file does not exist: " + path
    case NotPdf(name) => "file is not a PDF: " + name
    case TooFewInputs => "at least 2 PDF files are required for merging"
    case TooManyInputs => "maximum " + Decimal(MaxInputs) + " PDF files allowed"
    case MergeFailed(cause, output) => "failed to merge PDFs: " + cause + "\nOutput: " + output
    case OutputNotCreated => "merge completed but output file was not created"
  }

  /** The limit message reads the same in MergePDFs and in addFile, whose `%d` of
      maxPDFs renders as "100". */
  lemma TooManyInputsMessage()
    ensures Message(TooManyInputs) == "maximum 100 PDF files allowed"
  {
    assert Decimal(1) == "1";
    assert Decimal(10) == Decimal(1) + "0";
    assert Decimal(100) == Decimal(10) + "0";
  }

  /** The extension test of ValidatePDF, read off the path's last four characters. */
  predicate EndsWithPdf(path: string) {
    |path| >= 4 && path[|path| - 4] == '.' && path[|path| - 3] in "pP"
    && path[|path| - 2] in "dD" && path[|path| - 1] in "fF"
  }

  /** Comparing the lower-cased extension with ".pdf" accepts exactly the paths
      that end in '.', then p, d, f in either case. */
  lemma PdfExtensionIff(path: string)
    ensures ToLower(Ext(path)) == ".pdf" <==> EndsWithPdf(path)
  {
    if ToLower(Ext(path)) == ".pdf" {
      LoweredPdfExtension(path);
    }
    if EndsWithPdf(path) {
      ExtFromLastDot(path, |path| - 4);
    }
  }

  lemma LoweredPdfExtension(path: string)
    requires ToLower(Ext(path)) == ".pdf"
    ensures EndsWithPdf(path)
  {
    var e := Ext(path);
    var n := |path|;
    ExtIsDottedSuffix(path);
    assert |e| == 4;
    assert e == path[n - 4..];
    LowerCharFrom(e[0], '.', '.');
    LowerCharFrom(e[1], 'p', 'P');
    LowerCharFrom(e[2], 'd', 'D');
    LowerCharFrom(e[3], 'f', 'F');
  }

  /** Only the character itself and its upper-case form lower to a given character. */
  lemma LowerCharFrom(c: char, lower: char, upper: char)
    requires LowerChar(c) == lower
    requires lower == '.' ==> upper == '.'
    requires lower != '.' ==> 'a' <= lower <= 'z' && upper as int == lower as int - 32
    ensures c == lower || c == upper
  {
  }

  /** ValidatePDF over the set of paths that os.Stat does not report missing: existence is
      decided first, and only an existing path has its extension looked at. */
  function ValidatePDF(files: set<string>, path: string): (r: Outcome)
    ensures path !in files ==> r == Fail(NotExist(path))
    ensures path in files ==> (r == Ok <==> EndsWithPdf(path))
    ensures path in files && r != Ok ==> r == Fail(NotPdf(Base(path)))
  {
    PdfExtensionIff(path);
    if path !in files then Fail(NotExist(path))
    else if ToLower(Ext(path)) != ".pdf" then Fail(NotPdf(Base(path)))
    else Ok
  }

  /** The upper- and mixed-case extension is accepted, another extension is not. */
  lemma ValidateExamples(files: set<string>)
    requires "X.PDF" in files && "x.Pdf" in files && "x.txt" in files && "a/b.pdf" in files
    ensures ValidatePDF(files, "X.PDF") == Ok && ValidatePDF(files, "x.Pdf") == Ok
    ensures ValidatePDF(files, "x.txt") == Fail(NotPdf("x.txt"))
    ensures ValidatePDF(files, "a/b.pdf") == Ok
    ensures "gone.pdf" !in files ==> ValidatePDF(files, "gone.pdf") == Fail(NotExist("gone.pdf"))
  {
    assert EndsWithPdf("X.PDF") && EndsWithPdf("x.Pdf") && EndsWithPdf("a/b.pdf");
    assert !EndsWithPdf("x.txt");
    assert forall k :: 0 <= k < |"x.txt"| ==> "x.txt"[k] != Separator;
  }

  /** What the validation loop of MergePDFs returns: the error of the first input,
      in list order, that fails ValidatePDF, or nil when none does. */
  function FirstInvalid(files: set<string>, paths: seq<string>): (r: Outcome)
    ensures r == Ok <==> forall i :: 0 <= i < |paths| ==> ValidatePDF(files, paths[i]) == Ok
    ensures r != Ok ==> exists k :: 0 <= k < |paths| && r == ValidatePDF(files, paths[k])
                                    && forall j :: 0 <= j < k ==> ValidatePDF(files, paths[j]) == Ok
    decreases |paths|
  {
    if paths == [] then Ok
    else
      var v := ValidatePDF(files, paths[0]);
      if v != Ok then v
      else
        var r := FirstInvalid(files, paths[1..]);
        assert forall i :: 1 <= i < |paths| ==> paths[1..][i - 1] == paths[i];
        r
  }

  /** The first failing input decides the result, whatever follows it. */
  lemma {:induction false} FirstInvalidAt(files: set<string>, paths: seq<string>, k: nat)
    requires k < |paths| && ValidatePDF(files, paths[k]) != Ok
    requires forall j :: 0 <= j < k ==> ValidatePDF(files, paths[j]) == Ok
    ensures FirstInvalid(files, paths) == ValidatePDF(files, paths[k])
    decreases k
  {
    if k > 0 {
      FirstInvalidAt(files, paths[1..], k - 1);
    }
  }

  /** The validation loop of MergePDFs: each input in turn, stopping at the first
      error. */
  method ValidateAll(files: set<string>, paths: seq<string>) returns (r: Outcome)
    ensures r == FirstInvalid(files, paths)
  {
    var i := 0;
    while i < |paths|
      invariant 0 <= i <= |paths|
      invariant forall j :: 0 <= j < i ==> ValidatePDF(files, paths[j]) == Ok
    {
      var v := ValidatePDF(files, paths[i]);
      if v != Ok {
        FirstInvalidAt(files, paths, i);
        return v;
      }
      i := i + 1;
    }
    r := Ok;
  }

  /** Everything MergePDFs checks before it does anything: the count bounds and
      every input passing validation. */
  predicate PassesChecks(files: set<string>, inputPaths: seq<string>) {
    MinInputs <= |inputPaths| <= MaxInputs && FirstInvalid(files, inputPaths) == Ok
  }

  /** The fixed leading arguments of the `gs` command line. */
  function GhostscriptFlags(outputPath: string): (f: seq<string>)
    ensures |f| == 6 && f[5] == "-sOutputFile=" + outputPath
  {
    ["-dBATCH", "-dNOPAUSE", "-q", "-sDEVICE=pdfwrite", "-dPDFSETTINGS=/default",
     "-sOutputFile=" + outputPath]
  }

  /** The file system as the merger sees it: every path that os.Stat does not report
      missing (directories and unreadable paths included). */
  class FileSystem {
    var files: set<string>

    constructor (files: set<string>)
      ensures this.files == files
    {
      this.files := files;
    }
  }

  /** The progress callback, observed through how often it has been called. */
  class ProgressCallback {
    var calls: nat

    constructor ()
      ensures calls == 0
    {
      calls := 0;
    }

    method Call()
      modifies this
      ensures calls == old(calls) + 1
    {
      calls := calls + 1;
    }
  }

  /** What one run of the external `gs` process does, as far as the merger can
      observe it: the error exec reports (None for exit status 0), whether a file
      is at the output path when the process has finished, its combined output, and
      whether the os.Remove that follows a failure fails too (its error is dropped). */
  datatype GsRun = GsRun(err: Option<string>, leavesOutput: bool, output: string, removeFails: bool)

  /** MergePDFs. The callback is `progress`, null for Go's nil; `run` is what the
      `gs` process does when it is started; `invoked` is the argument list it is
      started with, None when it is never started. */
  method MergePDFs(inputPaths: seq<string>, outputPath: string, fs: FileSystem,
                   progress: ProgressCallback?, run: GsRun)
    returns (r: Outcome, invoked: Option<seq<string>>)
    modifies fs, progress
    // the checks, in their order
    ensures |inputPaths| < MinInputs ==> r == Fail(TooFewInputs)
    ensures |inputPaths| > MaxInputs ==> r == Fail(TooManyInputs)
    ensures MinInputs <= |inputPaths| <= MaxInputs && FirstInvalid(old(fs.files), inputPaths) != Ok
            ==> r == FirstInvalid(old(fs.files), inputPaths)
    // a failed check touches nothing: no callback, no gs, no file removed
    ensures !PassesChecks(old(fs.files), inputPaths) ==>
              invoked == None && fs.files == old(fs.files)
              && (progress != null ==> progress.calls == old(progress.calls))
    // once the checks pass, gs gets the fixed flags, then the inputs in the given order
    ensures PassesChecks(old(fs.files), inputPaths) ==>
              invoked.Some? && |invoked.value| == 6 + |inputPaths|
              && invoked.value[..6] == GhostscriptFlags(outputPath)
              && invoked.value[6..] == inputPaths
    // gs fails: the output is removed unless that removal fails, the callback has fired once
    ensures PassesChecks(old(fs.files), inputPaths) && run.err.Some? ==>
              r == Fail(MergeFailed(run.err.value, run.output))
              && fs.files == (if run.leavesOutput && run.removeFails then old(fs.files) + {outputPath}
                              else old(fs.files) - {outputPath})
              && (progress != null ==> progress.calls == old(progress.calls) + 1)
    // gs succeeds without leaving an output file: the callback has fired once
    ensures PassesChecks(old(fs.files), inputPaths) && run.err.None? && !run.leavesOutput ==>
              r == Fail(OutputNotCreated)
              && fs.files == old(fs.files) - {outputPath}
              && (progress != null ==> progress.calls == old(progress.calls) + 1)
    // full success: the output exists and the callback has fired twice
    ensures PassesChecks(old(fs.files), inputPaths) && run.err.None? && run.leavesOutput ==>
              r == Ok && fs.files == old(fs.files) + {outputPath}
              && (progress != null ==> progress.calls == old(progress.calls) + 2)
    // all or nothing: success means gs succeeded and left an output file; a failure after
    // gs ran leaves one only when gs left it and removing it failed
    ensures r == Ok <==> PassesChecks(old(fs.files), inputPaths) && run.err.None? && outputPath in fs.files
    ensures invoked.Some? && r != Ok ==>
              (outputPath in fs.files <==> run.err.Some? && run.leavesOutput && run.removeFails)
    ensures fs.files - {outputPath} == old(fs.files) - {outputPath}
  {
    if |inputPaths| < MinInputs {
      return Fail(TooFewInputs), None;
    }
    if |inputPaths| > MaxInputs {
      return Fail(TooManyInputs), None;
    }

    var v := ValidateAll(fs.files, inputPaths);
    if v != Ok {
      return v, None;
    }

    if progress != null {
      progress.Call();
    }

    var args := GhostscriptFlags(outputPath);
    args := args + inputPaths;
    invoked := Some(args);

    // the gs process runs; the only file it may create or leave behind is the output
    fs.files := if run.leavesOutput then fs.files + {outputPath} else fs.files - {outputPath};
    if run.err.Some? {
      if !run.removeFails {
        fs.files := fs.files - {outputPath};
      }
      assert fs.files == if run.leavesOutput && run.removeFails then old(fs.files) + {outputPath}
                         else old(fs.files) - {outputPath};
      return Fail(MergeFailed(run.err.value, run.output)), invoked;
    }

    if outputPath !in fs.files {
      return Fail(OutputNotCreated), invoked;
    }

    if progress != null {
      progress.Call();
    }
    r := Ok;
  }
}
