/** ui/app.go: the window's state. The ordered working set of PDF paths, the
    four operations that edit it, the two-field drag state that triggers a
    reorder, the status text and merge-button state derived from the count, and
    the merge and save-name logic behind the merge button. */
module App {
  import opened Text
  import opened Merger

  const MaxPDFs := 100

  const EmptyStatus := "Drop PDF files here or click 'Add PDF'"

  /** pluralize: the suffix for "PDF" in the status line. */
  function Pluralize(count: int): (suffix: string)
    ensures suffix == "" <==> count == 1
    ensures suffix != "" ==> suffix == "s"
  {
    if count == 1 then "" else "s"
  }

  /** getDefaultFilename, with today's date already formatted as YYYY-MM-DD. */
  function DefaultFilename(today: string): (name: string)
    ensures |name| == |today| + 11
  {
    "merged_" + today + ".pdf"
  }

  /** The suggested save name starts with "merged_", then holds the date, and has
      extension ".pdf", whatever the date string contains; once a file exists
      under that name it passes ValidatePDF. */
  lemma DefaultFilenameIsPdf(today: string, files: set<string>)
    ensures DefaultFilename(today)[..7] == "merged_"
    ensures DefaultFilename(today)[7..7 + |today|] == today
    ensures DefaultFilename(today)[7 + |today|..] == ".pdf"
    ensures Ext(DefaultFilename(today)) == ".pdf"
    ensures DefaultFilename(today) in files ==> ValidatePDF(files, DefaultFilename(today)) == Ok
  {
    var name := DefaultFilename(today);
    ExtFromLastDot(name, |name| - 4);
  }

  /** The merge button is enabled by updateUI exactly when this holds: when the
      count passes the lower bound MergePDFs checks. */
  predicate MergeEnabled(count: int)
    ensures MergeEnabled(count) <==> count >= MinInputs
  {
    count >= 2
  }

  /** The status label that updateUI sets for a given number of listed files. */
  function StatusText(count: nat): (r: string)
    ensures r == EmptyStatus <==> count == 0
  {
    if count == 0 then EmptyStatus
    else
      var r := Decimal(count) + CountedText(count);
      assert IsDigit(r[0]) && !IsDigit(EmptyStatus[0]);
      r
  }

  /** What follows the count in a non-empty status line. */
  function CountedText(count: nat): (t: string)
    ensures |t| > 0 && t[0] == ' '
  {
    " PDF" + Pluralize(count) + " added (max " + Decimal(MaxPDFs) + ")"
  }

  /** A non-empty status line is the count's digits followed by a space. */
  lemma StatusTextStartsWithCount(n: nat)
    requires n > 0
    ensures |Decimal(n)| < |StatusText(n)|
    ensures StatusText(n)[..|Decimal(n)|] == Decimal(n) && StatusText(n)[|Decimal(n)|] == ' '
  {
  }

  /** The status line tells every count apart: different counts give different text. */
  lemma StatusTextInjective(m: nat, n: nat)
    requires m != n
    ensures StatusText(m) != StatusText(n)
  {
    if m == 0 || n == 0 {
      var k := if m == 0 then n else m;
      StatusTextStartsWithCount(k);
      assert StatusText(k)[0] == Decimal(k)[0];
      assert !IsDigit(EmptyStatus[0]);
    } else {
      // equal texts would have equal digit prefixes, and digits read back to the count
      StatusTextStartsWithCount(m);
      StatusTextStartsWithCount(n);
      DecimalRoundTrip(m);
      DecimalRoundTrip(n);
    }
  }

  /** The list after removeFile(index): an index outside the list changes nothing;
      otherwise that one entry goes and the rest keep their order. */
  function Removed<T>(s: seq<T>, index: int): (r: seq<T>)
    ensures !(0 <= index < |s|) ==> r == s
    ensures 0 <= index < |s| ==>
              |r| == |s| - 1 && multiset(r) + multiset{s[index]} == multiset(s)
              && (forall k :: 0 <= k < index ==> r[k] == s[k])
              && (forall k :: index <= k < |r| ==> r[k] == s[k + 1])
  {
    if 0 <= index < |s| then
      assert s == s[..index] + [s[index]] + s[index + 1..];
      s[..index] + s[index + 1..]
    else s
  }

  /** The list with x inserted so that it sits at index. */
  function Inserted<T>(s: seq<T>, index: nat, x: T): (r: seq<T>)
    requires index <= |s|
    ensures |r| == |s| + 1 && r[index] == x && multiset(r) == multiset(s) + multiset{x}
    ensures forall k :: 0 <= k < index ==> r[k] == s[k]
    ensures forall k :: index < k < |r| ==> r[k] == s[k - 1]
  {
    assert s == s[..index] + s[index..];
    s[..index] + [x] + s[index..]
  }

  /** Where reorderFiles puts the moved entry: it is re-inserted after the removal,
      at to - 1 when moving forward. */
  function Destination(from: int, to: int): int {
    if to > from then to - 1 else to
  }

  predicate ValidMove(n: nat, from: int, to: int) {
    from != to && 0 <= from < n && 0 <= to < n
  }

  /** The list after reorderFiles(from, to): equal indices or an index outside the
      list change nothing; otherwise the entry at from is moved to Destination. */
  function Reordered<T>(s: seq<T>, from: int, to: int): (r: seq<T>)
    ensures |r| == |s| && multiset(r) == multiset(s)
    ensures !ValidMove(|s|, from, to) ==> r == s
    ensures ValidMove(|s|, from, to) ==> r[Destination(from, to)] == s[from]
  {
    if !ValidMove(|s|, from, to) then s
    else Inserted(Removed(s, from), Destination(from, to), s[from])
  }

  /** The slice splicing of reorderFiles computes Reordered. */
  lemma ReorderedBySplicing<T>(s: seq<T>, from: int, to: int)
    requires ValidMove(|s|, from, to)
    ensures var rest := s[..from] + s[from + 1..];
            var at := Destination(from, to);
            0 <= at <= |rest| && Reordered(s, from, to) == rest[..at] + ([s[from]] + rest[at..])
  {
  }

  /** Every position of a reordered list: the entries between the old and the new
      place of the moved one shift by one towards the old place, the others stay. */
  lemma ReorderedAt<T>(s: seq<T>, from: int, to: int, k: int)
    requires ValidMove(|s|, from, to) && 0 <= k < |s|
    ensures Reordered(s, from, to)[k] ==
              if k == Destination(from, to) then s[from]
              else if from <= k < Destination(from, to) then s[k + 1]
              else if Destination(from, to) < k <= from then s[k - 1]
              else s[k]
  {
  }

  /** Because of the index adjustment, moving an entry onto the next index leaves the
      list as it was. */
  lemma ReorderOntoNextIsNoOp<T>(s: seq<T>, from: nat)
    requires from + 1 < |s|
    ensures Reordered(s, from, from + 1) == s
  {
    var r := Reordered(s, from, from + 1);
    forall k | 0 <= k < |s| ensures r[k] == s[k] {
      ReorderedAt(s, from, from + 1, k);
    }
  }

  /** For the same reason no move puts another entry last: the last entry changes
      only when it is the one being moved. */
  lemma ReorderKeepsLastUnlessMoved<T>(s: seq<T>, from: int, to: int)
    requires ValidMove(|s|, from, to) && from != |s| - 1
    ensures Reordered(s, from, to)[|s| - 1] == s[|s| - 1]
  {
    ReorderedAt(s, from, to, |s| - 1);
  }

  /** The list after addFile(path): a full list and a path that fails validation
      are left as they are; otherwise the path is appended. */
  function AfterAdd(files: set<string>, list: seq<string>, path: string): (r: seq<string>)
    ensures |list| >= MaxPDFs ==> r == list
    ensures |list| < MaxPDFs && ValidatePDF(files, path) != Ok ==> r == list
    ensures |list| < MaxPDFs && ValidatePDF(files, path) == Ok ==> r == list + [path]
  {
    if |list| >= MaxPDFs || ValidatePDF(files, path) != Ok then list else list + [path]
  }

  /** The list after handleDroppedFiles: addFile on each dropped path in order. */
  function AfterAddAll(files: set<string>, list: seq<string>, paths: seq<string>): (r: seq<string>)
    ensures |list| <= |r| <= |list| + |paths|
    decreases |paths|
  {
    if paths == [] then list else AfterAddAll(files, AfterAdd(files, list, paths[0]), paths[1..])
  }

  /** Dropping files keeps the old entries in front, never goes past the limit and
      only adds dropped paths that pass validation. */
  lemma {:induction false} AfterAddAllBounded(files: set<string>, list: seq<string>, paths: seq<string>)
    requires |list| <= MaxPDFs
    ensures var r := AfterAddAll(files, list, paths);
            |list| <= |r| <= MaxPDFs && r[..|list|] == list
            && (forall k :: |list| <= k < |r| ==> r[k] in paths && ValidatePDF(files, r[k]) == Ok)
    decreases |paths|
  {
    if paths != [] {
      var next := AfterAdd(files, list, paths[0]);
      AfterAddAllBounded(files, next, paths[1..]);
      var r := AfterAddAll(files, list, paths);
      assert r[..|list|] == r[..|next|][..|list|];
      forall k | |list| <= k < |r| ensures r[k] in paths && ValidatePDF(files, r[k]) == Ok {
        if k >= |next| {
          assert r[k] in paths[1..];
        } else {
          assert r[k] == next[k] == paths[0];
        }
      }
    }
  }

  /** When every dropped path passes validation and there is room for all of them,
      they are all appended, in order. */
  lemma {:induction false} AfterAddAllAppendsAll(files: set<string>, list: seq<string>, paths: seq<string>)
    requires forall i :: 0 <= i < |paths| ==> ValidatePDF(files, paths[i]) == Ok
    requires |list| + |paths| <= MaxPDFs
    ensures AfterAddAll(files, list, paths) == list + paths
    decreases |paths|
  {
    if paths != [] {
      assert ValidatePDF(files, paths[0]) == Ok;
      forall i | 0 <= i < |paths[1..]| ensures ValidatePDF(files, paths[1..][i]) == Ok {
        assert paths[1..][i] == paths[i + 1];
      }
      assert AfterAdd(files, list, paths[0]) == list + [paths[0]];
      assert AfterAddAll(files, list, paths) == AfterAddAll(files, list + [paths[0]], paths[1..]);
      AfterAddAllAppendsAll(files, list + [paths[0]], paths[1..]);
      assert list + [paths[0]] + paths[1..] == list + paths;
    }
  }

  /** What the window shows as the result of an action. */
  datatype Dialog =
    | ErrorDialog(error: Error)
    | InfoDialog(title: string, message: string)
    | SaveDialog(fileName: string)

  /** PDFMergerApp, without its widgets: the label and the merge button appear as
      the text and the enabled flag that updateUI gives them. */
  class PDFMergerApp {
    var pdfFiles: seq<string>
    var dragStartIdx: int
    var isDragging: bool
    var statusText: string
    var mergeEnabled: bool

    /** At most 100 entries, the label and button agree with the count, and the
        drag start is cleared whenever no drag is in progress. */
    ghost predicate Valid()
      reads this
    {
      |pdfFiles| <= MaxPDFs
      && statusText == StatusText(|pdfFiles|)
      && mergeEnabled == MergeEnabled(|pdfFiles|)
      && (!isDragging ==> dragStartIdx == -1)
    }

    /** NewPDFMergerApp, with setupUI's closing updateUI. */
    constructor ()
      ensures Valid()
      ensures pdfFiles == [] && dragStartIdx == -1 && !isDragging
      ensures statusText == EmptyStatus && !mergeEnabled
    {
      pdfFiles := [];
      dragStartIdx := -1;
      isDragging := false;
      mergeEnabled := false;
      statusText := EmptyStatus;
      new;
      UpdateUI();
    }

    /** updateUI reduced to the label text and the merge button. */
    method UpdateUI()
      modifies this`statusText, this`mergeEnabled
      ensures statusText == StatusText(|pdfFiles|) && mergeEnabled == MergeEnabled(|pdfFiles|)
    {
      var count := |pdfFiles|;
      if count == 0 {
        statusText := EmptyStatus;
      } else {
        statusText := Decimal(count) + " PDF" + Pluralize(count) + " added (max " + Decimal(MaxPDFs) + ")";
        assert statusText == StatusText(count);
      }
      if count >= 2 {
        mergeEnabled := true;
      } else {
        mergeEnabled := false;
      }
    }

    /** addFile: the limit is checked first, then the path is validated; `shown`
        is the error dialog, if any. */
    method AddFile(files: set<string>, path: string) returns (shown: Option<Error>)
      requires Valid()
      modifies this`pdfFiles, this`statusText, this`mergeEnabled
      ensures Valid()
      ensures pdfFiles == AfterAdd(files, old(pdfFiles), path)
      ensures old(|pdfFiles|) >= MaxPDFs ==> shown == Some(TooManyInputs)
      ensures old(|pdfFiles|) < MaxPDFs && ValidatePDF(files, path) != Ok
              ==> shown == Some(ValidatePDF(files, path).error)
      ensures shown == None <==> pdfFiles != old(pdfFiles)
    {
      if |pdfFiles| >= MaxPDFs {
        // the limit message is that of TooManyInputs (see TooManyInputsMessage)
        return Some(TooManyInputs);
      }
      var v := ValidatePDF(files, path);
      if v != Ok {
        return Some(v.error);
      }
      pdfFiles := pdfFiles + [path];
      UpdateUI();
      shown := None;
    }

    /** handleDroppedFiles: addFile on each dropped path in turn; every path is
        either added or answered by one error dialog. */
    method HandleDroppedFiles(files: set<string>, paths: seq<string>) returns (shown: seq<Error>)
      requires Valid()
      modifies this`pdfFiles, this`statusText, this`mergeEnabled
      ensures Valid()
      ensures pdfFiles == AfterAddAll(files, old(pdfFiles), paths)
      ensures |pdfFiles| - |old(pdfFiles)| + |shown| == |paths|
    {
      shown := [];
      var i := 0;
      while i < |paths|
        invariant 0 <= i <= |paths|
        invariant Valid()
        invariant AfterAddAll(files, pdfFiles, paths[i..]) == AfterAddAll(files, old(pdfFiles), paths)
        invariant |pdfFiles| - |old(pdfFiles)| + |shown| == i
      {
        assert paths[i..][1..] == paths[i + 1..];
        var dialog := AddFile(files, paths[i]);
        if dialog.Some? {
          shown := shown + [dialog.value];
        }
        i := i + 1;
      }
    }

    /** removeFile(index). */
    method RemoveFile(index: int)
      requires Valid()
      modifies this`pdfFiles, this`statusText, this`mergeEnabled
      ensures Valid()
      ensures pdfFiles == Removed(old(pdfFiles), index)
    {
      if index < 0 || index >= |pdfFiles| {
        return;
      }
      pdfFiles := pdfFiles[..index] + pdfFiles[index + 1..];
      UpdateUI();
    }

    /** clearAllFiles. */
    method ClearAllFiles()
      requires Valid()
      modifies this`pdfFiles, this`statusText, this`mergeEnabled
      ensures Valid()
      ensures pdfFiles == [] && statusText == EmptyStatus && !mergeEnabled
    {
      pdfFiles := [];
      UpdateUI();
    }

    /** reorderFiles(from, to): take the entry out, adjust the target index for the
        removal, put the entry back in. */
    method ReorderFiles(from: int, to: int)
      requires Valid()
      modifies this`pdfFiles, this`statusText, this`mergeEnabled
      ensures Valid()
      ensures pdfFiles == Reordered(old(pdfFiles), from, to)
    {
      if from == to || from < 0 || to < 0 || from >= |pdfFiles| || to >= |pdfFiles| {
        return;
      }
      var file := pdfFiles[from];
      var rest := pdfFiles[..from] + pdfFiles[from + 1..];
      var at := to;
      if at > from {
        at := at - 1;
      }
      ReorderedBySplicing(pdfFiles, from, to);
      ghost var moved := Reordered(pdfFiles, from, to);
      pdfFiles := rest[..at] + ([file] + rest[at..]);
      assert pdfFiles == moved && |pdfFiles| == |old(pdfFiles)|;
      UpdateUI();
      assert pdfFiles == moved && isDragging == old(isDragging) && dragStartIdx == old(dragStartIdx);
    }

    /** The list's OnSelected handler: a drag starts at id. */
    method OnSelected(id: int)
      requires Valid()
      modifies this`dragStartIdx, this`isDragging
      ensures Valid()
      ensures dragStartIdx == id && isDragging
    {
      dragStartIdx := id;
      isDragging := true;
    }

    /** The list's OnUnselected handler: a drag in progress from another index
        reorders the list onto id; the drag state is cleared in every case. */
    method OnUnselected(id: int)
      requires Valid()
      modifies this
      ensures Valid()
      ensures pdfFiles == if old(isDragging) && old(dragStartIdx) != -1 && old(dragStartIdx) != id
                          then Reordered(old(pdfFiles), old(dragStartIdx), id)
                          else old(pdfFiles)
      ensures !isDragging && dragStartIdx == -1
    {
      if isDragging && dragStartIdx != -1 && dragStartIdx != id {
        ReorderFiles(dragStartIdx, id);
      }
      isDragging := false;
      dragStartIdx := -1;
    }

    /** startMerge: with fewer than two files it only informs; otherwise it asks
        for the output path, suggesting the dated default name. It proceeds exactly
        when the merge button is enabled. */
    method StartMerge(today: string) returns (d: Dialog)
      requires Valid()
      ensures |pdfFiles| < 2 ==> d == InfoDialog("Not Enough Files", "Please add at least 2 PDF files to merge.")
      ensures |pdfFiles| >= 2 ==> d == SaveDialog(DefaultFilename(today))
      ensures d.SaveDialog? <==> mergeEnabled
    {
      if |pdfFiles| < 2 {
        return InfoDialog("Not Enough Files", "Please add at least 2 PDF files to merge.");
      }
      var defaultName := DefaultFilename(today);
      d := SaveDialog(defaultName);
    }

    /** performMerge, run to completion in the caller's thread: MergePDFs on the
        current list with no progress callback; on success the list is cleared. */
    method PerformMerge(outputPath: string, fs: FileSystem, run: GsRun) returns (d: Dialog)
      requires Valid()
      modifies this`pdfFiles, this`statusText, this`mergeEnabled, fs
      ensures Valid()
      ensures d.InfoDialog? <==>
                PassesChecks(old(fs.files), old(pdfFiles)) && run.err.None? && outputPath in fs.files
      ensures d.InfoDialog? ==>
                d.message == "PDF merged successfully!\n\nSaved to:\n" + outputPath && pdfFiles == []
      ensures !d.InfoDialog? ==> d.ErrorDialog? && pdfFiles == old(pdfFiles)
      ensures |old(pdfFiles)| < MinInputs ==> d == ErrorDialog(TooFewInputs)
      ensures MinInputs <= |old(pdfFiles)| && FirstInvalid(old(fs.files), old(pdfFiles)) != Ok
              ==> d == ErrorDialog(FirstInvalid(old(fs.files), old(pdfFiles)).error)
      ensures PassesChecks(old(fs.files), old(pdfFiles)) && run.err.Some?
              ==> d == ErrorDialog(MergeFailed(run.err.value, run.output))
      ensures PassesChecks(old(fs.files), old(pdfFiles)) && run.err.None? && !run.leavesOutput
              ==> d == ErrorDialog(OutputNotCreated)
      ensures fs.files - {outputPath} == old(fs.files) - {outputPath}
    {
      var err, _ := MergePDFs(pdfFiles, outputPath, fs, null, run);
      if err != Ok {
        return ErrorDialog(err.error);
      }
      d := InfoDialog("Success", "PDF merged successfully!\n\nSaved to:\n" + outputPath);
      ClearAllFiles();
    }
  }
}
