/**
 * Properties of the merge job: the loop is a left fold, inputs that fail
 * are skipped without disturbing the rest, pages come out in input order,
 * converted inputs are read back from a name that depends only on the
 * stem, and the outcome does not depend on whether cleanup succeeded.
 */
module MergeFacts {
  import opened Common
  import opened Paths
  import opened MergeJob

  /** The loop over xs + ys is the loop over xs followed by the loop over ys. */
  lemma {:induction false} RunAppend(env: Env, w: Workspace, xs: seq<Input>, ys: seq<Input>)
    ensures Run(env, w, xs + ys) == Run(env, Run(env, w, xs), ys)
    decreases |ys|
  {
    if ys == [] {
      assert xs + ys == xs;
    } else {
      var zs := xs + ys;
      assert zs[..|zs| - 1] == xs + ys[..|ys| - 1];
      assert zs[|zs| - 1] == ys[|ys| - 1];
      RunAppend(env, w, xs, ys[..|ys| - 1]);
    }
  }

  /** The accumulator only grows: no input removes or reorders pages already added. */
  lemma {:induction false} RunExtendsPages(env: Env, w: Workspace, inputs: seq<Input>)
    ensures w.pages <= Run(env, w, inputs).pages
    decreases |inputs|
  {
    if inputs != [] {
      RunExtendsPages(env, w, inputs[..|inputs| - 1]);
    }
  }

  /**
   * An input that fails before it writes a temporary file or yields a page:
   * an unsupported or legacy .doc file, a PDF the reader delivers no page
   * from, a .docx or image whose conversion raises without writing.
   */
  predicate FailsCleanly(env: Env, x: Input) {
    match x.kind
    case Pdf => Delivered(env.readable, x.path) == []
    case Docx => env.word(x.path) == Conversion(None, true)
    case Image => env.images(x.path) == Conversion(None, true)
    case PowerPoint => false
    case LegacyDoc => true
    case Unsupported => true
  }

  // Helper for FailedInputSkipped: one cleanly failing step leaves the state alone.
  lemma StepFailsCleanly(env: Env, w: Workspace, x: Input)
    requires FailsCleanly(env, x)
    ensures Step(env, w, x) == w
  {
  }

  /**
   * Skip and continue: the job processes every input after one that fails
   * cleanly exactly as if that input had not been in the list.
   */
  lemma FailedInputSkipped(env: Env, w: Workspace, xs: seq<Input>, x: Input, ys: seq<Input>)
    requires FailsCleanly(env, x)
    ensures Run(env, w, xs + [x] + ys) == Run(env, w, xs + ys)
  {
    RunAppend(env, w, xs + [x], ys);
    RunAppend(env, w, xs, [x]);
    RunAppend(env, w, xs, ys);
    var v := Run(env, w, xs);
    assert [x][..0] == [];
    StepFailsCleanly(env, v, x);
  }

  // Helper for the concatenation proofs: one PDF step, unfolded.
  lemma StepPdf(env: Env, w: Workspace, x: Input)
    requires x.kind == Pdf
    ensures Step(env, w, x) == w.(pages := w.pages + Delivered(env.readable, x.path))
  {
  }

  /** The pages the reader delivers from each input's own path, one after another: an independent reference. */
  function DirectPages(env: Env, inputs: seq<Input>): seq<Page>
    decreases |inputs|
  {
    if inputs == [] then []
    else DirectPages(env, inputs[..|inputs| - 1]) + Delivered(env.readable, inputs[|inputs| - 1].path)
  }

  function PageCount(env: Env, inputs: seq<Input>): nat
    decreases |inputs|
  {
    if inputs == [] then 0
    else PageCount(env, inputs[..|inputs| - 1]) + |Delivered(env.readable, inputs[|inputs| - 1].path)|
  }

  /**
   * For a list of PDFs the output is the concatenation of the files' pages
   * in list order, each in its own page order, and the page count is the
   * sum of the files' page counts; no temporary file or COM call is made.
   */
  lemma {:induction false} PdfOnlyConcatenation(env: Env, w: Workspace, inputs: seq<Input>)
    requires forall k :: 0 <= k < |inputs| ==> inputs[k].kind == Pdf
    ensures Run(env, w, inputs) == w.(pages := w.pages + DirectPages(env, inputs))
    ensures |DirectPages(env, inputs)| == PageCount(env, inputs)
    decreases |inputs|
  {
    if inputs != [] {
      var pre, x := inputs[..|inputs| - 1], inputs[|inputs| - 1];
      assert forall k :: 0 <= k < |pre| ==> pre[k] == inputs[k];
      PdfOnlyConcatenation(env, w, pre);
      StepPdf(env, Run(env, w, pre), x);
    }
  }

  /** The same for file_list: a list of .pdf paths merges to their pages in list order. */
  lemma PdfFilesConcatenate(env: Env, files: seq<string>)
    requires forall k :: 0 <= k < |files| ==> KindOf(files[k]) == Pdf
    ensures Accumulated(env, files) == DirectPages(env, DescribeAll(files))
  {
    var inputs := DescribeAll(files);
    assert forall k :: 0 <= k < |inputs| ==> inputs[k] == Describe(files[k]);
    PdfOnlyConcatenation(env, Initial, inputs);
  }

  /** Whether the existence check after a conversion is reached. */
  predicate ReadsBack(env: Env, x: Input) {
    match x.kind
    case Docx => !env.word(x.path).raised
    case Image => !env.images(x.path).raised
    case PowerPoint => !SlideSession(env.slides(x.path)).escaped
    case _ => false
  }

  /** What the conversion of x left at its temporary name, if anything. */
  function WrittenBy(env: Env, x: Input): Option<seq<Page>> {
    match x.kind
    case Docx => env.word(x.path).written
    case Image => env.images(x.path).written
    case PowerPoint => if 3 <= env.slides(x.path).returned then env.slides(x.path).written else None
    case _ => None
  }

  /**
   * Every converted kind writes only to the entry of its temporary name
   * (any spelling of it up to letter case) and then takes its pages from
   * whatever exists there, which is an earlier input's file when the
   * conversion wrote nothing; if nothing is there, no pages are added.
   */
  lemma TempNameRule(env: Env, w: Workspace, x: Input)
    requires IsConverted(x.kind)
    ensures var (w', slot) := (Step(env, w, x), Slot(x.tempName));
      && (forall n :: n != slot ==> Delivered(w'.temp, n) == Delivered(w.temp, n))
      && (WrittenBy(env, x).None? ==> w'.temp == w.temp)
      && (WrittenBy(env, x).Some? ==> Delivered(w'.temp, slot) == WrittenBy(env, x).value)
      && w'.pages == w.pages + (if ReadsBack(env, x) then Delivered(w'.temp, slot) else [])
  {
  }

  /**
   * The temporary-name collision: when an earlier converted input wrote
   * its copy under the same stem, up to letter case, and a later one writes
   * nothing but still reaches the existence check, the later one re-reads
   * the earlier copy and its pages appear twice.
   */
  lemma StaleCopyReread(env: Env, w: Workspace, d: Input, p: Input, pages: seq<Page>)
    requires IsConverted(d.kind) && IsConverted(p.kind) && Slot(d.tempName) == Slot(p.tempName)
    requires WrittenBy(env, d) == Some(pages) && ReadsBack(env, d)
    requires WrittenBy(env, p).None? && ReadsBack(env, p)
    ensures Run(env, w, [d, p]).pages == w.pages + pages + pages
  {
    var v := Step(env, w, d);
    assert [d, p][..1] == [d] && [d][..0] == [];
    assert Run(env, w, [d]) == v;
    assert Run(env, w, [d, p]) == Step(env, v, p);
    TempNameRule(env, w, d);
    TempNameRule(env, v, p);
  }

  /** Classification looks only at the lower-cased name: ".PDF" is a PDF. */
  lemma KindIgnoresCase(p: string, q: string)
    requires Lower(p) == Lower(q)
    ensures KindOf(p) == KindOf(q)
  {
    ExtensionIgnoresCase(p, q);
  }

  /** Failing to remove the temporary directory changes nothing in the reported outcome. */
  lemma CleanupFailureKeepsOutcome(env: Env, files: seq<string>, outputName: string)
    ensures var a := Merge(env.(rmtreeFails := false), files, outputName);
      var b := Merge(env.(rmtreeFails := true), files, outputName);
      a.success == b.success && a.message == b.message && a.output == b.output
  {
    RunIgnoresCleanup(env, Initial, DescribeAll(files));
  }

  // Helper for CleanupFailureKeepsOutcome: the loop never consults the rmtree oracle.
  lemma {:induction false} RunIgnoresCleanup(env: Env, w: Workspace, inputs: seq<Input>)
    ensures Run(env.(rmtreeFails := false), w, inputs) == Run(env.(rmtreeFails := true), w, inputs)
    decreases |inputs|
  {
    if inputs != [] {
      RunIgnoresCleanup(env, w, inputs[..|inputs| - 1]);
    }
  }

  /** Classification and temporary name of directory + stem + extension. */
  lemma KindOfJoined(dir: string, stem: string, ext: string)
    requires |dir| > 0 && IsSep(dir[|dir| - 1])
    requires !AllDots(stem) && forall j :: 0 <= j < |stem| ==> !IsSep(stem[j])
    requires |ext| > 0 && ext[0] == '.'
    requires forall j :: 1 <= j < |ext| ==> ext[j] != '.' && !IsSep(ext[j])
    ensures Describe(dir + stem + ext) == Input(dir + stem + ext, Classify(Lower(ext)), stem + ".pdf")
  {
    JoinedPathParts(dir, stem, ext);
  }

  /**
   * A file whose whole name is a dot and an extension (".pdf", ".docx") has
   * no extension at all and is skipped as unsupported.
   */
  lemma DotFileUnsupported(dir: string, name: string)
    requires |dir| > 0 && IsSep(dir[|dir| - 1])
    requires |name| > 0 && name[0] == '.'
    requires forall j :: 1 <= j < |name| ==> name[j] != '.' && !IsSep(name[j])
    ensures KindOf(dir + name) == Unsupported
  {
    DotFileHasNoExtension(dir, name);
  }

  /**
   * Stems that differ only in letter case ("Report" in one directory,
   * "report" in another) give one temporary file.
   */
  lemma CaseVariantStemsCollide(stem1: string, stem2: string)
    requires Lower(stem1) == Lower(stem2)
    ensures Slot(stem1 + ".pdf") == Slot(stem2 + ".pdf")
  {
    LowerAppend(stem1, ".pdf");
    LowerAppend(stem2, ".pdf");
  }
}
