# PDF merger: a Dafny model of the merge job and the file-list window

The program merges PDF, Word (.docx), PowerPoint (.ppt/.pptx) and image
(.jpg/.jpeg/.png) files into one PDF. It has two parts, and this project models the core of each:

- **`merge_files`** (merge_pdfs.py). The merge job: a sequential loop over the input
  paths.
  - It dispatches on the lower-cased extension of each path's base name. It converts Word, PowerPoint and image
    inputs into a fresh temporary directory, under the name `stem + ".pdf"`. It skips `.doc` and unsupported files.
  - It reads each input's (or converted copy's) pages into one accumulator.
  - It skips any input that fails and carries on.
  - After the loop it decides the `(success, message)` outcome and removes the temporary directory
    on every exit path.
  - PowerPoint is driven through a COM session whose
    resources are released in a `finally` block.
- **`PdfMergerApp`** (pdf_merger_gui.py). The window.
  - An ordered list of chosen paths, with a listbox that mirrors it by base name and a single selection.
  - Add (de-duplicating), remove, move-up and move-down buttons, and an output-name entry.
  - A guard that runs the merge job only when both the list and the output name are non-empty.

The modules:

- `Paths` (paths.dfy) holds Windows path handling as Python's `ntpath` does it: `basename`,
  `splitext` and ASCII `lower`. Both `/` and `\` are separators, and a bare `X:` drive prefix is stripped.
- `MergeJob` (merge_job.dfy) models the job.
  - The outside world (pypdf reads, docx2pdf, the PowerPoint automation, Pillow/FPDF, `mkdtemp`, the
    output write, `rmtree`) is an `Env` value of oracles.
  - The temporary directory is a map from lower-cased file name to the pages a reader delivers. Windows matches file
    names without regard to letter case.
  - `Merge` is the job as a function, and `MergeFiles` is the imperative job, proved equal to it.
  - `ProcessFile` and `HandleInput` are the loop body, proved equal to one step `Step` of the fold.
  - `ExportSlides` is the COM `try/except/finally`, proved equal to the session function `SlideSession`.
  - `AppendPages` is the `add_page` loop, proved to append every delivered page.
- `MergeFacts` (merge_facts.dfy) proves what the job promises:
  - skip-and-continue;
  - input order;
  - the temporary-name rule and the stale-copy re-read it allows;
  - cleanup independence.
- `MergerGui` (merger_app.dfy) models the window as a class `MergerApp`.
  - Its fields are `files`, `rows` (the listbox), `selection` and `output` (the entry text).
  - Each button is a method whose postcondition states the whole new state.
  - The invariant `Valid()` says the listbox shows the base name of each file, row for row, and that the
    selection names a row.

## Model

| member | source | states |
|---|---|---|
| Paths.Basename | merge_pdfs.py:32 | the base name is a suffix of the path containing no separator. It is everything after the last separator when there is one. Without a separator it is the path minus an `X:` drive prefix, or the whole path |
| Paths.SplitExt | merge_pdfs.py:34 | stem + extension is the name. The extension is empty or one dot followed by no dot or separator. It is non-empty exactly when the last dot of the last component has a non-dot character before it in that component |
| Paths.SplitExtLower | merge_pdfs.py:34 | splitting the lower-cased name gives the lower-cased parts of splitting the original |
| Paths.BasenameLower | merge_pdfs.py:32-34 | lower-casing commutes with taking the base name |
| Paths.ExtensionMatchesStem | merge_pdfs.py:34-48 | the extension used for dispatch and the original-case stem used for the temporary name split the same base name at the same dot |
| Paths.ExtensionIgnoresCase | merge_pdfs.py:34 | two paths that differ only in letter case have the same dispatch extension |
| Paths.JoinedPathParts | merge_pdfs.py:32-48 | for directory + stem + extension, with a stem that may contain dots ("v1.2"): base name is stem + extension, stem is the stem, dispatch extension is the lower-cased extension |
| Paths.DotFileHasNoExtension | merge_pdfs.py:34 | a name that is one dot followed by other characters (".pdf") has no extension |
| MergeJob.SessionInOrder | merge_pdfs.py:69-84 | every PowerPoint session starts with CoInitialize, and makes each call at most once in the order CoInitialize, Dispatch, Open, SaveAs, Close, Quit, CoUninitialize |
| MergeJob.SessionCleanRelease | merge_pdfs.py:79-84 | with no failing release: Close is made iff a presentation was opened. Quit is made iff the application was created. SaveAs is made iff the export was attempted. CoUninitialize always comes last and nothing escapes |
| MergeJob.SessionFaultyRelease | merge_pdfs.py:79-84 | a release call that raises is the last call made. A raising Close skips Quit and CoUninitialize |
| MergeJob.Step | merge_pdfs.py:36-143 | processing one input only appends to the accumulated pages |
| MergeJob.Merge | merge_pdfs.py:12-180 | An empty list fails with no temporary directory and no output. The directory is created iff the list is non-empty and mkdtemp works. It is left behind iff its removal fails. The job succeeds iff some page was accumulated and the write went through. It then writes exactly the accumulated pages and reports the count of all listed files. With no pages it reports no valid pages and writes nothing. A failed write reports a write error and leaves the output untouched (open failed) or truncated (write failed). A failed mkdtemp reports an unexpected error and writes nothing |
| MergeJob.AppendPages | merge_pdfs.py:41-42 | the add_page loop appends every delivered page in order |
| MergeJob.ExportSlides | merge_pdfs.py:69-84 | the try/except/finally makes exactly the calls of the session function and reports whether SaveAs was attempted and whether a release error escaped |
| MergeJob.HandleInput | merge_pdfs.py:36-143 | the dispatch on one input's kind, with its per-file exception handling, yields the state of one loop step |
| MergeJob.ProcessFile | merge_pdfs.py:32-143 | the loop body, from the extension and temporary name of the path onward, yields the state of one loop step |
| MergeJob.MergeFiles | merge_pdfs.py:12-180 | the imperative job returns the outcome of Merge |
| MergeFacts.RunAppend | merge_pdfs.py:31 | the loop over xs + ys is the loop over xs followed by the loop over ys |
| MergeFacts.RunExtendsPages | merge_pdfs.py:31-145 | pages already accumulated are never removed or reordered by later inputs |
| MergeFacts.FailedInputSkipped | merge_pdfs.py:142-145 | the job with a cleanly failing input anywhere in the list is the job without it |
| MergeFacts.PdfOnlyConcatenation | merge_pdfs.py:31-43 | for PDF inputs the accumulator is the concatenation of each file's pages in list order, and its length is the sum of the page counts |
| MergeFacts.PdfFilesConcatenate | merge_pdfs.py:31-43 | a list of .pdf paths merges to their pages in list order |
| MergeFacts.TempNameRule | merge_pdfs.py:46-125 | A converted input writes only at the entry of its temporary name, whatever its letter case. A conversion that writes nothing leaves the directory unchanged. The pages added are whatever is then at that entry, provided the existence check is reached |
| MergeFacts.StaleCopyReread | merge_pdfs.py:48-96 | when two converted inputs have temporary names equal up to letter case, and the later one writes nothing but reaches the existence check, the earlier copy's pages are added twice |
| MergeFacts.CaseVariantStemsCollide | merge_pdfs.py:48-52 | stems that differ only in letter case ("Report", "report") give the same temporary file |
| MergeFacts.KindOfJoined | merge_pdfs.py:34-48 | directory + stem + extension is dispatched on the lower-cased extension and converted to stem + ".pdf", whatever the directory, for any stem without a separator that is not all dots |
| MergeFacts.DotFileUnsupported | merge_pdfs.py:134-139 | a file named only by a dot and an extension, such as ".pdf", is skipped as unsupported |
| MergeFacts.KindIgnoresCase | merge_pdfs.py:34-38 | classification does not depend on letter case |
| MergeFacts.CleanupFailureKeepsOutcome | merge_pdfs.py:171-180 | whether removing the temporary directory fails changes neither success, message nor output file |
| MergerGui.AddedMembers | pdf_merger_gui.py:82-86 | a selection appends exactly the chosen paths not yet listed, and none twice |
| MergerGui.AddedOrder | pdf_merger_gui.py:83-85 | appended paths keep the order of their first occurrence in the selection |
| MergerGui.AddKeepsDistinct | pdf_merger_gui.py:84-85 | a list without repeated paths keeps that property after adding |
| MergerGui.AddTwiceAddsNothing | pdf_merger_gui.py:82-86 | choosing the same files again adds nothing |
| MergerGui.RemoveAtKeepsOthers | pdf_merger_gui.py:92 | deleting entry i keeps the others in order. It removes exactly one occurrence of that entry and preserves distinctness |
| MergerGui.SwapExchanges | pdf_merger_gui.py:101 | the tuple swap exchanges the two entries, leaves the rest in place and undoes itself |
| MergerGui.SwapPermutes | pdf_merger_gui.py:101 | the swap is a permutation and preserves distinctness |
| MergerGui.DeleteInsertSwaps | pdf_merger_gui.py:103-105 | the listbox's get/delete/insert moves a row exactly as the list's swap moves the entry |
| MergerGui.SwapMirrors | pdf_merger_gui.py:101-105 | swapping files and swapping rows keeps the listbox a mirror of the list |
| MergerGui.RemoveMirrors | pdf_merger_gui.py:92-93 | deleting the same index from list and listbox keeps the mirror |
| MergerGui.MapAppend | pdf_merger_gui.py:86 | the rows of appended files are the appended rows |
| MergerGui.Report | pdf_merger_gui.py:195-200 | the notice is a success exactly when the job succeeded, and carries its message |
| MergerGui.MergerApp.constructor | pdf_merger_gui.py:15-62 | the window starts with an empty list and listbox, no selection and the output name "merged_output.pdf" |
| MergerGui.MergerApp.SelectRow | pdf_merger_gui.py:23 | a click selects one row and changes nothing else |
| MergerGui.MergerApp.EditOutput | pdf_merger_gui.py:60-62 | typing sets the output name and changes nothing else |
| MergerGui.MergerApp.ChooseOutput | pdf_merger_gui.py:171-179 | a chosen save name replaces the output name, and a cancelled dialog changes nothing |
| MergerGui.MergerApp.AddFiles | pdf_merger_gui.py:71-86 | the list grows by exactly the new paths of the selection, the listbox by their base names, and the selection and output are unchanged |
| MergerGui.MergerApp.RemoveFile | pdf_merger_gui.py:88-93 | with a selection, that entry is deleted from list and listbox and the selection is cleared. Without one, nothing changes |
| MergerGui.MergerApp.MoveUp | pdf_merger_gui.py:95-107 | with selection i > 0, entries i-1 and i are swapped in list and listbox and i-1 is selected. Otherwise nothing changes |
| MergerGui.MergerApp.MoveDown | pdf_merger_gui.py:109-121 | with selection i below the last row, entries i and i+1 are swapped in list and listbox and i+1 is selected. Otherwise nothing changes |
| MergerGui.MergerApp.MergeSelected | pdf_merger_gui.py:181-200 | it warns about an empty list first, then about an empty output name. Otherwise it reports the outcome of the merge job run on the list in its current order |

## Left out

- The converters and I/O are oracles in `Env`: pypdf, docx2pdf, the PowerPoint automation, Pillow and FPDF, the
  file system, `mkdtemp`, the output write and `rmtree`. A read is the page sequence it delivers before any error.
  A read that fails part-way keeps the pages already added, because the source does not roll back. An
  unreadable file delivers nothing.
- The page size of a rendered image and the unit conversion (merge_pdfs.py:104-113) are not modelled. Only the pages
  written are.
- Closing the image handle (merge_pdfs.py:114, 130-131) is not modelled. Nothing the job returns depends on it.
- Log output (`print`) and the message texts are left out. `Message` names each outcome, and the success message
  carries `len(file_list)`, the count of all listed files, including skipped ones. An exception raised by `print`
  itself, for example an encoding error on the console, is not modelled.
- The unused `converted_files_for_cleanup` list (merge_pdfs.py:27) is not modelled.
- `MergeJob.Merge`: for a write failure it records only whether the output file was left untouched (open failed) or
  truncated (write failed). It does not record what a partial write contains.
- Paths: UNC share roots (`\\server\share` with nothing after it) are not modelled; their base name follows
  `splitdrive`. Lower-casing is ASCII only. No non-ASCII character lower-cases to a letter of a recognised
  extension, so classification is unaffected.
- The temporary directory is keyed by the lower-cased file name, with ASCII lower-casing only. Every job gets a fresh
  directory of its own.
- The window's widgets, layout, file dialogs and message boxes (pdf_merger_gui.py:10-69, 72-81) are left out. The
  dialogs' results are the parameters of `AddFiles` and `ChooseOutput`.
- The preview buttons (pdf_merger_gui.py:123-169) only launch other programs, so they are left out.
- The window's `except` around `merge_files` (pdf_merger_gui.py:202-204) is not modelled: the modelled job always
  returns.
- What the code does where a reader might expect otherwise. The model follows the code:
  - A conversion that writes nothing still reaches the existence check. It can then re-read an earlier input's copy
    whose stem is equal up to letter case (`StaleCopyReread`).
  - A PDF read that fails part-way keeps the pages already added.
  - A failing `rmtree` is ignored (merge_pdfs.py:174-180), so the temporary directory is then left behind.
  - `open(output, 'wb')` truncates the file before `write` (merge_pdfs.py:152-153), so a failure during the write
    leaves a truncated file.
