/**
 * merge_files: a sequential fold over the input paths that dispatches on
 * the lower-cased extension, appends the pages each input yields to one
 * accumulator, keeps going when an input fails, then decides the
 * (success, message) outcome and removes the temporary directory.
 *
 * The converters (pypdf, docx2pdf, PowerPoint automation, Pillow/FPDF) are
 * oracles held in an Env; the temporary directory is a map from lower-cased
 * file name to the pages a reader delivers from that file.
 */
module MergeJob {
  import opened Common
  import opened Paths

  /** An opaque page token; the merge never looks inside a page. */
  datatype Page = Page(id: nat)

  datatype Kind = Pdf | Docx | PowerPoint | Image | LegacyDoc | Unsupported

  /** A call into the PowerPoint automation session. */
  datatype ComCall = CoInitialize | Dispatch | Open | SaveAs | Close | Quit | CoUninitialize

  /**
   * What docx2pdf.convert, or the Pillow/FPDF rendering of an image, did:
   * the pages now readable at the temporary name (None: nothing written)
   * and whether it raised.
   */
  datatype Conversion = Conversion(written: Option<seq<Page>>, raised: bool)

  /**
   * What driving PowerPoint did for one presentation: how many of
   * CoInitialize, Dispatch, Presentations.Open and SaveAs returned normally
   * (4 or more: all of them), what SaveAs left at the temporary name when it
   * was called, and which release call (Close, Quit or CoUninitialize), if
   * any, raises when it is made.
   */
  datatype SlideRun = SlideRun(returned: nat, written: Option<seq<Page>>, releaseFault: Option<ComCall>)

  datatype WriteFault = NoFault | OpenFails | WriteFails

  /** Everything outside merge_files that decides its behaviour. */
  datatype Env = Env(
    readable: map<string, seq<Page>>,  // pages PdfReader delivers from an input path before any error
    word: string -> Conversion,
    slides: string -> SlideRun,
    images: string -> Conversion,
    mkdtempFails: bool,
    writeFault: WriteFault,
    rmtreeFails: bool)

  /** The job's working state: temporary directory, page accumulator, COM calls made. */
  datatype Workspace = Workspace(temp: map<string, seq<Page>>, pages: seq<Page>, com: seq<ComCall>)

  datatype Session = Session(trace: seq<ComCall>, saveAttempted: bool, escaped: bool)

  datatype Message = NoFiles | Merged(count: nat, output: string) | WriteError | NoValidPages | UnexpectedError

  /** The file at the output path after the job. */
  datatype OutputFile = Untouched | Complete(pages: seq<Page>) | Truncated

  datatype MergeResult = MergeResult(
    success: bool,
    message: Message,
    output: OutputFile,
    tempDirCreated: bool,
    tempDirLeft: bool,
    com: seq<ComCall>)

  const Initial := Workspace(map[], [], [])

  function Classify(ext: string): Kind {
    if ext == ".pdf" then Pdf
    else if ext == ".docx" then Docx
    else if ext == ".ppt" || ext == ".pptx" then PowerPoint
    else if ext == ".jpg" || ext == ".jpeg" || ext == ".png" then Image
    else if ext == ".doc" then LegacyDoc
    else Unsupported
  }

  function KindOf(path: string): Kind {
    Classify(Extension(path))
  }

  /**
   * One entry of file_list with what the loop derives from it: the kind
   * given by its lower-cased extension, and the name of its converted copy,
   * stem + ".pdf", inside the temporary directory.
   */
  datatype Input = Input(path: string, kind: Kind, tempName: string)

  function Describe(path: string): Input {
    Input(path, KindOf(path), TempName(path))
  }

  function DescribeAll(files: seq<string>): (inputs: seq<Input>)
    ensures |inputs| == |files|
  {
    seq(|files|, k requires 0 <= k < |files| => Describe(files[k]))
  }

  predicate IsConverted(k: Kind) {
    k == Docx || k == PowerPoint || k == Image
  }

  /** What a reader delivers from a name; a missing name delivers nothing. */
  function Delivered(files: map<string, seq<Page>>, name: string): seq<Page> {
    if name in files then files[name] else []
  }

  function Install(temp: map<string, seq<Page>>, name: string, written: Option<seq<Page>>): map<string, seq<Page>> {
    if written.Some? then temp[name := written.value] else temp
  }

  /**
   * The entry of the temporary directory a name refers to. Windows matches
   * file names without regard to letter case, so "Report.pdf" and
   * "report.pdf" are one file: os.path.exists finds either spelling and a
   * write under one replaces the other.
   */
  function Slot(name: string): string {
    Lower(name)
  }

  /** Position of each call in the only order the session makes them. */
  function Rank(c: ComCall): nat {
    match c
    case CoInitialize => 0
    case Dispatch => 1
    case Open => 2
    case SaveAs => 3
    case Close => 4
    case Quit => 5
    case CoUninitialize => 6
  }

  predicate InOrder(t: seq<ComCall>) {
    forall i, j :: 0 <= i < j < |t| ==> Rank(t[i]) < Rank(t[j])
  }

  /** The release calls of the finally block, up to and including the first that raises. */
  function ReleasesMade(run: SlideRun): seq<ComCall> {
    var presentationOpen := 3 <= run.returned;
    var created := 2 <= run.returned;
    if presentationOpen && run.releaseFault == Some(Close) then [Close]
    else if created && run.releaseFault == Some(Quit) then (if presentationOpen then [Close] else []) + [Quit]
    else (if presentationOpen then [Close] else []) + (if created then [Quit] else []) + [CoUninitialize]
  }

  /**
   * The PowerPoint session: acquisition calls up to the first that raises,
   * then Close if a presentation was opened, Quit if the application was
   * created and CoUninitialize, in that order, export or no export. A
   * release call that raises skips the ones after it and escapes.
   */
  function SlideSession(run: SlideRun): Session {
    var released := ReleasesMade(run);
    var escaped := run.releaseFault.Some? && released[|released| - 1] == run.releaseFault.value;
    Session(Acquired(run) + released, 3 <= run.returned, escaped)
  }

  function Acquired(run: SlideRun): seq<ComCall> {
    [CoInitialize, Dispatch, Open, SaveAs][..if run.returned < 4 then run.returned + 1 else 4]
  }

  // Helper for the session lemmas: Acquired unfolded case by case.
  lemma AcquiredCases(run: SlideRun)
    ensures run.returned == 0 ==> Acquired(run) == [CoInitialize]
    ensures run.returned == 1 ==> Acquired(run) == [CoInitialize, Dispatch]
    ensures run.returned == 2 ==> Acquired(run) == [CoInitialize, Dispatch, Open]
    ensures 3 <= run.returned ==> Acquired(run) == [CoInitialize, Dispatch, Open, SaveAs]
  {
  }

  /**
   * The resource-guard discipline of the PowerPoint path: every call is
   * made at most once and in the order CoInitialize, Dispatch, Open,
   * SaveAs, Close, Quit, CoUninitialize, starting with CoInitialize.
   */
  lemma {:induction false} SessionInOrder(run: SlideRun)
    ensures SlideSession(run).trace[0] == CoInitialize
    ensures InOrder(SlideSession(run).trace)
  {
    AcquiredCases(run);
    var t := SlideSession(run).trace;
    assert t == Acquired(run) + ReleasesMade(run);
    forall i, j | 0 <= i < j < |t| ensures Rank(t[i]) < Rank(t[j]) {
    }
  }

  /**
   * When no release call raises, Close is made exactly when a presentation
   * was opened, Quit exactly when the application was created, and
   * CoUninitialize always comes last, whether or not the export succeeded.
   */
  lemma {:induction false} SessionCleanRelease(run: SlideRun)
    requires run.releaseFault.None?
    ensures var s := SlideSession(run);
      && !s.escaped
      && s.trace[|s.trace| - 1] == CoUninitialize
      && (Close in s.trace <==> 3 <= run.returned)
      && (Quit in s.trace <==> 2 <= run.returned)
      && (SaveAs in s.trace <==> s.saveAttempted)
  {
    AcquiredCases(run);
    var t := SlideSession(run).trace;
    assert t == Acquired(run) + ReleasesMade(run);
  }

  /** A release call that raises is the last call made; the ones after it are skipped. */
  lemma {:induction false} SessionFaultyRelease(run: SlideRun)
    requires run.releaseFault.Some?
    ensures var s := SlideSession(run);
      && (s.escaped ==> s.trace[|s.trace| - 1] == run.releaseFault.value)
      && (!s.escaped ==> s.trace[|s.trace| - 1] == CoUninitialize)
      && (run.releaseFault == Some(Close) && 3 <= run.returned ==> s.escaped && Quit !in s.trace && CoUninitialize !in s.trace)
  {
    AcquiredCases(run);
    var t := SlideSession(run).trace;
    assert t == Acquired(run) + ReleasesMade(run);
  }

  /** Pages appended after a conversion, read from whatever is at the temporary name. */
  function AfterConversion(w: Workspace, slot: string, c: Conversion): Workspace {
    var temp := Install(w.temp, slot, c.written);
    if c.raised then w.(temp := temp)
    else w.(temp := temp, pages := w.pages + Delivered(temp, slot))
  }

  /** One iteration of the loop over the inputs. */
  function Step(env: Env, w: Workspace, input: Input): (w': Workspace)
    ensures w.pages <= w'.pages
  {
    var (path, slot) := (input.path, Slot(input.tempName));
    match input.kind
    case Pdf => w.(pages := w.pages + Delivered(env.readable, path))
    case Docx => AfterConversion(w, slot, env.word(path))
    case PowerPoint =>
      var run := env.slides(path);
      var s := SlideSession(run);
      var temp := if s.saveAttempted then Install(w.temp, slot, run.written) else w.temp;
      var v := w.(temp := temp, com := w.com + s.trace);
      if s.escaped then v else v.(pages := w.pages + Delivered(temp, slot))
    case Image => AfterConversion(w, slot, env.images(path))
    case LegacyDoc => w
    case Unsupported => w
  }

  /** The loop over the inputs, in list order. */
  function Run(env: Env, w: Workspace, inputs: seq<Input>): Workspace
    decreases |inputs|
  {
    if inputs == [] then w
    else Step(env, Run(env, w, inputs[..|inputs| - 1]), inputs[|inputs| - 1])
  }

  function Accumulated(env: Env, files: seq<string>): seq<Page> {
    Run(env, Initial, DescribeAll(files)).pages
  }

  lemma RunSnoc(env: Env, w: Workspace, inputs: seq<Input>, i: nat)
    requires i < |inputs|
    ensures Run(env, w, inputs[..i + 1]) == Step(env, Run(env, w, inputs[..i]), inputs[i])
  {
    assert inputs[..i + 1][..i] == inputs[..i];
  }

  /**
   * merge_files as a function of its inputs and its environment. An empty
   * list fails before any temporary directory or output exists; otherwise
   * the job succeeds exactly when some page was accumulated and the write
   * went through, and the temporary directory, once created, is left
   * behind only when removing it fails.
   */
  function Merge(env: Env, files: seq<string>, outputName: string): (r: MergeResult)
    ensures files == [] ==> !r.success && r.message == NoFiles && !r.tempDirCreated && r.output == Untouched
    ensures r.tempDirCreated <==> files != [] && !env.mkdtempFails
    ensures r.tempDirLeft <==> r.tempDirCreated && env.rmtreeFails
    ensures r.success <==> r.tempDirCreated && Accumulated(env, files) != [] && env.writeFault == NoFault
    ensures r.success ==> r.output == Complete(Accumulated(env, files)) && r.message == Merged(|files|, outputName)
    ensures r.tempDirCreated && Accumulated(env, files) == [] ==> r.message == NoValidPages && r.output == Untouched
    ensures r.tempDirCreated && Accumulated(env, files) != [] && env.writeFault != NoFault ==>
      r.message == WriteError && r.output == (if env.writeFault == WriteFails then Truncated else Untouched)
    ensures files != [] && env.mkdtempFails ==> r.message == UnexpectedError && r.output == Untouched
    ensures r.output.Complete? ==> r.success
  {
    if files == [] then MergeResult(false, NoFiles, Untouched, false, false, [])
    else if env.mkdtempFails then MergeResult(false, UnexpectedError, Untouched, false, false, [])
    else
      var w := Run(env, Initial, DescribeAll(files));
      var left := env.rmtreeFails;
      if w.pages == [] then MergeResult(false, NoValidPages, Untouched, true, left, w.com)
      else match env.writeFault
        case NoFault => MergeResult(true, Merged(|files|, outputName), Complete(w.pages), true, left, w.com)
        case OpenFails => MergeResult(false, WriteError, Untouched, true, left, w.com)
        case WriteFails => MergeResult(false, WriteError, Truncated, true, left, w.com)
  }

  // ---------------------------------------------------------------------
  // The imperative code.

  /** `for page in reader.pages: writer.add_page(page)` */
  method AppendPages(acc: seq<Page>, delivered: seq<Page>) returns (out: seq<Page>)
    ensures out == acc + delivered
  {
    out := acc;
    var k := 0;
    while k < |delivered|
      invariant 0 <= k <= |delivered|
      invariant out == acc + delivered[..k]
    {
      out := out + [delivered[k]];
      k := k + 1;
    }
    assert delivered[..k] == delivered;
  }

  /** The try/except/finally around the PowerPoint automation calls. */
  method ExportSlides(run: SlideRun) returns (trace: seq<ComCall>, saveAttempted: bool, escaped: bool)
    ensures Session(trace, saveAttempted, escaped) == SlideSession(run)
  {
    var powerpoint, presentation := false, false;
    trace, saveAttempted, escaped := [CoInitialize], false, false;
    // try: each call is made only when the one before it returned
    if 1 <= run.returned {
      trace := trace + [Dispatch];
      if 2 <= run.returned {
        powerpoint := true;
        trace := trace + [Open];
        if 3 <= run.returned {
          presentation := true;
          trace := trace + [SaveAs];
          saveAttempted := true;
        }
      }
    }
    AcquiredCases(run);
    assert trace == Acquired(run);
    ghost var acquired := trace;
    // finally
    if presentation {
      trace := trace + [Close];
      escaped := run.releaseFault == Some(Close);
    }
    if powerpoint && !escaped {
      trace := trace + [Quit];
      escaped := run.releaseFault == Some(Quit);
    }
    if !escaped {
      trace := trace + [CoUninitialize];
      escaped := run.releaseFault == Some(CoUninitialize);
    }
    assert trace == acquired + ReleasesMade(run);
  }

  /** The body of the loop for one input: its extension and temporary name, then the dispatch. */
  method ProcessFile(env: Env, temp: map<string, seq<Page>>, pages: seq<Page>, com: seq<ComCall>, path: string)
    returns (temp': map<string, seq<Page>>, pages': seq<Page>, com': seq<ComCall>)
    ensures Workspace(temp', pages', com') == Step(env, Workspace(temp, pages, com), Describe(path))
  {
    var input := Input(path, KindOf(path), TempName(path));
    temp', pages', com' := HandleInput(env, temp, pages, com, input);
  }

  /** The dispatch on the kind of one input, with its per-file exception handling. */
  method HandleInput(env: Env, temp: map<string, seq<Page>>, pages: seq<Page>, com: seq<ComCall>, input: Input)
    returns (temp': map<string, seq<Page>>, pages': seq<Page>, com': seq<ComCall>)
    ensures Workspace(temp', pages', com') == Step(env, Workspace(temp, pages, com), input)
  {
    temp', pages', com' := temp, pages, com;
    var (path, slot, kind) := (input.path, Slot(input.tempName), input.kind);
    if kind == Pdf {
      pages' := AppendPages(pages, Delivered(env.readable, path));
    } else if kind == Docx || kind == Image {
      var c := if kind == Docx then env.word(path) else env.images(path);
      if c.written.Some? {
        temp' := temp[slot := c.written.value];
      }
      if !c.raised && slot in temp' {
        pages' := AppendPages(pages, temp'[slot]);
      }
    } else if kind == PowerPoint {
      var run := env.slides(path);
      var trace, saveAttempted, escaped := ExportSlides(run);
      com' := com + trace;
      if saveAttempted && run.written.Some? {
        temp' := temp[slot := run.written.value];
      }
      if !escaped && slot in temp' {
        pages' := AppendPages(pages, temp'[slot]);
      }
    }
    // .doc and every other extension: skipped, nothing changes
  }

  /** merge_files(file_list, output_filename) */
  method MergeFiles(env: Env, files: seq<string>, outputName: string) returns (r: MergeResult)
    ensures r == Merge(env, files, outputName)
  {
    if files == [] {
      return MergeResult(false, NoFiles, Untouched, false, false, []);
    }
    var created := !env.mkdtempFails;
    var success, message, output := false, UnexpectedError, Untouched;
    var com: seq<ComCall> := [];
    if created {
      var temp: map<string, seq<Page>> := map[];
      var pages: seq<Page> := [];
      ghost var inputs := DescribeAll(files);
      var i := 0;
      while i < |files|
        invariant 0 <= i <= |files|
        invariant Workspace(temp, pages, com) == Run(env, Initial, inputs[..i])
      {
        RunSnoc(env, Initial, inputs, i);
        assert inputs[i] == Describe(files[i]);
        temp, pages, com := ProcessFile(env, temp, pages, com, files[i]);
        i := i + 1;
      }
      assert inputs[..i] == inputs;
      assert Workspace(temp, pages, com) == Run(env, Initial, DescribeAll(files));
      if |pages| > 0 {
        match env.writeFault
        case NoFault =>
          success, message, output := true, Merged(|files|, outputName), Complete(pages);
        case OpenFails =>
          message := WriteError;
        case WriteFails =>
          message, output := WriteError, Truncated;
      } else {
        message := NoValidPages;
      }
    }
    // finally: the temporary directory is removed whenever it was created
    var left := created && env.rmtreeFails;
    r := MergeResult(success, message, output, created, left, com);
  }
}
