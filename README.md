# mergit: a Dafny model of the merge core and the working-set list

mergit is a desktop tool that merges an ordered list of PDF files into one,
by handing the list to Ghostscript. This project models its two sequential
cores and proves what they promise.

- **Validation and merge orchestration** (`pdf/merger.go`, module `Merger` in
  `merger.dfy`). `ValidatePDF` is a function over a snapshot of the file
  system, given as the set of paths that `os.Stat` does not report missing
  (directories and unreadable paths included).
  Existence is checked first. Then the lower-cased extension must be `.pdf`.
  `MergePDFs` is a method over two mutable objects: a `FileSystem`, and a
  `ProgressCallback` that counts its calls (null stands for Go's nil
  callback). The `gs` process is an oracle: a `GsRun` value says whether it
  fails, whether a file is at the output path when it finishes, what it
  prints, and whether the `os.Remove` after a failure fails too. The method returns the argument list `gs` was started with, so the
  order of the inputs can be stated.
- **The window's working set** (`ui/app.go`, module `App` in `app.dfy`).
  `PDFMergerApp` is a class. Its fields are `pdfFiles` (a `seq<string>`), the
  drag state `dragStartIdx`/`isDragging`, and the two things `updateUI` sets:
  the status text and whether the merge button is enabled. `Valid()` bundles
  four facts: at most 100 entries, label and button agree with the count, and
  no drag start is kept while no drag is in progress. Every operation keeps
  `Valid()`. Each operation's new list is a pure function of the old one
  (`AfterAdd`, `Removed`, `Reordered`), and the list properties are proved
  about those functions.
- **Go library behaviour the core depends on** (module `Text` in `text.dfy`):
  `filepath.Ext`, `filepath.Base`, ASCII `strings.ToLower`, and `%d`
  formatting, each written out as a function.

Properties proved include:

- `ValidatePDF` accepts an existing path exactly when it ends in `.pdf` in any
  letter case, and reports a missing path before it looks at the extension.
- `MergePDFs` checks in a fixed order: too few inputs, then too many, then the
  first invalid input in list order. A failed check calls nothing and changes
  nothing.
- `gs` receives the six fixed flags and then the inputs in the given order.
- If `gs` fails, the output path is removed and the callback has fired once;
  a file survives only when `gs` left one and its removal failed, an error
  the source discards. If `gs` reports success without leaving a file, the
  output path is absent and the callback has fired once. Full success means
  the output exists and the callback has fired twice.
- The list operations keep the 100-entry bound. They are permutations where
  the source moves entries, and the untouched entries keep their order.
- The status line is injective in the count. `startMerge` goes ahead exactly
  when the merge button is enabled.

`reorderFiles` decrements the target index when it moves an entry forward.
As a result, a move onto the next index changes nothing, and no move can put
another entry in the last place. The model keeps this behaviour, and
`ReorderOntoNextIsNoOp` and `ReorderKeepsLastUnlessMoved` state it.

The model keeps these choices of the code:

- Validation checks existence and extension only. There is no structural
  parse of the PDF.
- The output is confirmed by existence alone, not by a nonzero size.
- `performMerge` passes a nil progress callback.

## Model

| member | source | states |
|---|---|---|
| `Text.Ext` | pdf/merger.go:19 | the extension is never longer than the path; what it is (the dotted suffix of the last element) is stated by the four lemmas below |
| `Text.ExtIsDottedSuffix` | pdf/merger.go:19 | the extension `filepath.Ext` yields is a suffix of the path and is empty or starts with '.' |
| `Text.ExtHasOneDot` | pdf/merger.go:19 | after its leading '.', the extension contains no other '.' and no separator |
| `Text.ExtEmptyIff` | pdf/merger.go:19 | the extension is empty exactly when the last path element contains no '.' |
| `Text.ExtFromLastDot` | pdf/merger.go:19 | a '.' followed only by characters that are neither '.' nor '/' starts the extension (converse of the three above) |
| `Text.ToLower` | pdf/merger.go:19 | same length, each character lowered on its own, and a character changes exactly when it is an ASCII upper-case letter |
| `Text.Base` | pdf/merger.go:21 | `filepath.Base` is never empty, is "." for the empty path, is "/" for a path made only of separators, contains no separator unless it is "/", and is the path itself when the path has no separator |
| `Text.LastElementAfterSeparator` | pdf/merger.go:21 | in `dir/name`, with no separator in `name`, the last element starts just after that separator and is `name`, whatever `dir` holds |
| `Text.BaseIsLastElement` | pdf/merger.go:21 | for any directory and any non-empty element without separators, the base name of `dir/name` and of `dir/name/` is `name` |
| `Text.Decimal` | ui/app.go:294 | `%d` gives at least one digit, only digits, and no leading zero unless the count is 0 |
| `Text.DecimalRoundTrip` | ui/app.go:294 | reading back the `%d` rendering of a count gives the count |
| `Merger.PdfExtensionIff` | pdf/merger.go:19-20 | the lower-cased extension equals ".pdf" iff the path ends in '.', p, d, f, each letter in either case |
| `Merger.TooManyInputsMessage` | pdf/merger.go:34-35 | the limit error reads "maximum 100 PDF files allowed", the same text `addFile` formats from `maxPDFs` (ui/app.go:174) |
| `Merger.ValidatePDF` | pdf/merger.go:12-25 | a missing path fails with the "does not exist" error whatever its extension; an existing path is accepted iff it ends in .pdf case-insensitively, and otherwise fails with the "not a PDF" error naming its base name |
| `Merger.ValidateExamples` | pdf/merger.go:19-24 | existing `X.PDF`, `x.Pdf` and `a/b.pdf` are accepted; `x.txt` is rejected as not a PDF; a missing `gone.pdf` is reported missing |
| `Merger.FirstInvalid` | pdf/merger.go:39-43 | the validation loop's result is nil iff every input validates, and otherwise is the error of an input before which every input validated |
| `Merger.ValidateAll` | pdf/merger.go:39-43 | the loop that validates each input in turn and stops at the first error returns exactly FirstInvalid |
| `Merger.FirstInvalidAt` | pdf/merger.go:39-43 | the first failing input in list order decides the result, whatever follows it |
| `Merger.GhostscriptFlags` | pdf/merger.go:52-59 | six fixed flags, the last of which names the output path; `MergePDFs` passes them before the inputs |
| `Merger.ProgressCallback.Call` | pdf/merger.go:46-48 | one call of the callback advances the call count by exactly one |
| `Merger.MergePDFs` | pdf/merger.go:29-84 | fewer than 2 inputs: "at least 2" error; more than 100: "maximum 100" error; otherwise the first invalid input's error; all three reached with no callback, no `gs` and the file system unchanged. Once the checks pass: `gs` gets the six fixed flags, then the inputs in order; on `gs` failure the output is removed, unless `gs` left it and the discarded `os.Remove` error occurs, and the callback fired once; on success without an output file the result is "output file was not created" with one callback; on full success the result is nil, the output exists, and the callback fired twice. Success iff the checks pass, `gs` succeeds and the output exists; no other file changes |
| `App.Pluralize` | ui/app.go:309-314 | the suffix is empty iff the count is 1 and "s" for every other count |
| `App.DefaultFilename` | ui/app.go:282-285 | the default save name is 11 characters longer than the date; its layout is stated by DefaultFilenameIsPdf |
| `App.DefaultFilenameIsPdf` | ui/app.go:282-285 | the default save name is "merged_", then the date, then exactly ".pdf" as its last four characters and as its extension, for every date string; such a file, once it exists, passes ValidatePDF |
| `App.MergeEnabled` | ui/app.go:297-302 | the merge button is enabled exactly when the count reaches the lower bound that `MergePDFs` checks |
| `App.StatusText` | ui/app.go:290-295 | the status label is the empty-list text exactly when the list is empty |
| `App.StatusTextStartsWithCount` | ui/app.go:294 | a non-empty status line begins with the count's decimal digits followed by a space |
| `App.StatusTextInjective` | ui/app.go:290-295 | the status label gives different text for different counts |
| `App.Removed` | ui/app.go:190-197 | an out-of-range index leaves the list unchanged; a valid index removes exactly that entry: length drops by one, the removed entry is the only one missing from the multiset, entries before keep their index, entries after move down by one |
| `App.Inserted` | ui/app.go:219 | the spliced-in entry sits at the insertion index, the entries before it keep their index, the entries after move up by one, and the multiset gains exactly that entry |
| `App.Reordered` | ui/app.go:206-222 | same length and a permutation of the old list; equal indices or any out-of-range index leave it unchanged; otherwise the moved entry lands at to-1 when to > from and at to otherwise |
| `App.ReorderedBySplicing` | ui/app.go:211-219 | removing the entry and splicing it back in at the adjusted index computes Reordered |
| `App.ReorderedAt` | ui/app.go:211-219 | every position after a move: the moved entry at its destination, the entries between old and new place shifted by one towards the old place, all others in place |
| `App.ReorderOntoNextIsNoOp` | ui/app.go:216-219 | moving an entry onto the next index leaves the list unchanged |
| `App.ReorderKeepsLastUnlessMoved` | ui/app.go:216-219 | the last entry changes only when it is the one being moved |
| `App.AfterAdd` | ui/app.go:171-187 | a list already holding 100 or more entries is unchanged; a path that fails validation leaves it unchanged; otherwise the path is appended |
| `App.AfterAddAll` | ui/app.go:163-168 | dropping files never shrinks the list and adds at most one entry per dropped path |
| `App.AfterAddAllBounded` | ui/app.go:163-168 | dropping files keeps the old entries in front, never exceeds 100 entries, and only adds dropped paths that validate |
| `App.AfterAddAllAppendsAll` | ui/app.go:163-168 | when every dropped path validates and there is room for all, they are all appended in the order dropped |
| `App.PDFMergerApp.constructor` | ui/app.go:36-50 | the new window has an empty list, no drag in progress (start index -1), the empty-list status text and a disabled merge button |
| `App.PDFMergerApp.UpdateUI` | ui/app.go:288-306 | the label becomes the count-derived status text and the merge button is enabled iff the count is at least 2 |
| `App.PDFMergerApp.AddFile` | ui/app.go:171-187 | the limit is checked before validation; the list becomes AfterAdd of the old list; the "maximum 100" error is shown when full, the validation error when the path is invalid, and no dialog exactly when the list changed; the invariant holds |
| `App.PDFMergerApp.HandleDroppedFiles` | ui/app.go:163-168 | each dropped path in turn goes through addFile; every path is either added or answered by one error dialog |
| `App.PDFMergerApp.RemoveFile` | ui/app.go:190-197 | the list becomes Removed(old list, index); the invariant holds |
| `App.PDFMergerApp.ClearAllFiles` | ui/app.go:200-203 | the list is empty, the status text is the empty-list text and merge is disabled |
| `App.PDFMergerApp.ReorderFiles` | ui/app.go:206-222 | the list becomes Reordered(old list, from, to); the count, and so the bound, is kept |
| `App.PDFMergerApp.OnSelected` | ui/app.go:87-90 | a drag starts at the selected index |
| `App.PDFMergerApp.OnUnselected` | ui/app.go:92-99 | a drag in progress from a different, set index reorders the list onto the unselected index; otherwise the list is unchanged; the drag state is cleared in every case |
| `App.PDFMergerApp.StartMerge` | ui/app.go:225-251 | below 2 files only the "Not Enough Files" information is shown; otherwise the save dialog opens, suggesting DefaultFilename(today); it proceeds exactly when the merge button is enabled |
| `App.PDFMergerApp.PerformMerge` | ui/app.go:254-279 | success (the checks pass, `gs` succeeds and the output exists) shows the success message with the output path and clears the list; any failure shows an error dialog and leaves the list as it was; fewer than 2 files gives the "at least 2" error; otherwise the first invalid file's error, then the `gs` failure with its output, then "output file was not created"; the "maximum 100" case cannot arise because `Valid()` bounds the list at 100; no file other than the output changes |

## Left out

- Fyne widgets, windows, layout, icons, list rendering and `List.Refresh` (ui/app.go:53-140): UI plumbing. `updateUI` is kept as the status text and the merge button's enabled flag. Dialogs are values returned by the methods.
- The file-open and save dialogs (`showAddFileDialog`, the callback in `startMerge`): their error and cancel branches are platform dialogs. What they lead to is modelled: `AddFile` on the chosen path, and `PerformMerge` on the chosen output path.
- The goroutine in `performMerge`: the model runs the merge to completion in the caller. Sharing `pdfFiles` with the UI thread while the merge runs is not modelled.
- The real `gs` process: a `GsRun` value stands for its outcome. Page concatenation is not modelled.
- Merger.MergePDFs: does not state that the output's pages are the inputs' pages in order, because that is the work of the external `gs` process, which is an oracle here. The model proves only that `gs` gets the inputs in the given order.
- `os.Stat` and `os.Remove` as real I/O: the file system is a set of paths. A path counts as existing unless `os.Stat` reports that it does not exist. The source treats other `Stat` errors, such as permission denied, the same way. Whether `os.Remove` fails is a flag of the `gs` oracle, since the source discards its error.
- `time.Now()` in `getDefaultFilename`: the date comes in already formatted.
- `Run` and the `exec` error's text: the cause of a `gs` failure is part of the oracle.
- Unicode in `strings.ToLower`: only ASCII letters are lowered. No non-ASCII character lowers to '.', 'p', 'd' or 'f', so the `.pdf` decision is the same.
- Windows paths: '/' is the only separator, and volume names are not modelled.
- `src/index.js` returns a constant HTML response and has nothing to model.
