/**
 * `PdfMergeTool` ("pdf.merge"): joins several PDF documents into one. The
 * input is a list of paths separated by ';'; the documents are appended in
 * list order to a `PdfMerger` over the output document.
 */
module PdfMergeTool {
  import opened Values
  import opened Text
  import opened ToolCore

  const ToolId: string := "pdf.merge"

  const MissingInputMessage: string := "Nessun file PDF specificato per il merge."
  const MissingOutputMessage: string := "Percorso file di output non specificato."
  const AccessDeniedMessage: string := "Accesso" + " negato. Verifica i permessi dei file."
  const TooFewMessage: string := "Sono necessari almeno 2 file PDF per eseguire il merge."

  /** The failure for the first input path that does not exist. */
  function NotFoundMessage(path: string): string {
    "File non trovato: " + path
  }

  // ---------------------------------------------------------------------------
  // Path list
  // ---------------------------------------------------------------------------

  /** `Split(';', RemoveEmptyEntries).Select(p => p.Trim()).ToList()`. */
  function ParsePaths(input: string): (paths: seq<string>)
    ensures |paths| == |RemoveEmpty(Split(input, ';'))|
  {
    MapAll(RemoveEmpty(Split(input, ';')), Trim)
  }

  /** Paths come out in input order: the paths of "a;b" are those of a, then those of b. */
  lemma PathsInOrder(a: string, b: string)
    ensures ParsePaths(a + [';'] + b) == ParsePaths(a) + ParsePaths(b)
  {
    SplitAppend(a, b, ';');
    RemoveEmptyAppend(Split(a, ';'), Split(b, ';'));
    MapAllAppend(RemoveEmpty(Split(a, ';')), RemoveEmpty(Split(b, ';')), Trim);
  }

  /** An empty entry (as between ";;", or at either end) is dropped. */
  lemma EmptyEntryDropped()
    ensures ParsePaths("") == []
  {
    assert Split("", ';') == [""];
  }

  /**
   * A non-empty entry without ';' is one path, trimmed. Entries are dropped
   * only when empty before trimming, so an entry of blanks stays, as "".
   */
  lemma OneEntry(entry: string)
    requires entry != [] && ';' !in entry
    ensures ParsePaths(entry) == [Trim(entry)]
  {
    SplitNoSeparator(entry, ';');
    assert RemoveEmpty([entry]) == [entry] by {
      assert [entry][1..] == [];
    }
    assert [entry][..0] == [];
  }

  /** No path holds a ';', and none starts or ends with white space. */
  lemma PathsAreClean(input: string)
    ensures forall p :: p in ParsePaths(input) ==>
      ';' !in p && (p != [] ==> !IsWhiteSpace(p[0]) && !IsWhiteSpace(p[|p| - 1]))
  {
    var entries := RemoveEmpty(Split(input, ';'));
    var paths := ParsePaths(input);
    forall p | p in paths
      ensures ';' !in p && (p != [] ==> !IsWhiteSpace(p[0]) && !IsWhiteSpace(p[|p| - 1]))
    {
      var i :| 0 <= i < |paths| && paths[i] == p;
      assert entries[i] in entries;
      TrimAddsNothing(entries[i], Unicode, ';');
    }
  }

  /** There are at most as many paths as ';'-separated entries. */
  lemma PathCount(input: string)
    ensures |ParsePaths(input)| <= Count(input, ';') + 1
  {
    SplitCount(input, ';');
  }

  // ---------------------------------------------------------------------------
  // Validation of the paths
  // ---------------------------------------------------------------------------

  /** The first `n` paths exist. */
  predicate FirstExist(paths: seq<string>, fs: FileSystem, n: nat)
    requires n <= |paths|
  {
    forall j :: 0 <= j < n ==> FileExists(fs, paths[j])
  }

  /**
   * An entry of blanks between entries `a` and `b` becomes the path "",
   * which `File.Exists` rejects: when every path of `a` exists, "" is the
   * first missing path, so the run fails with "File non trovato: ".
   */
  lemma BlankEntryNotFound(a: string, blank: string, b: string, fs: FileSystem)
    requires blank != [] && ';' !in blank && AllWhite(Unicode, blank)
    requires FirstExist(ParsePaths(a), fs, |ParsePaths(a)|)
    ensures var paths := ParsePaths(a + [';'] + blank + [';'] + b);
      var i := |ParsePaths(a)|;
      i < |paths| && paths[i] == "" && !FileExists(fs, paths[i]) && FirstExist(paths, fs, i)
  {
    PathsInOrder(a, blank + [';'] + b);
    PathsInOrder(blank, b);
    OneEntry(blank);
    assert a + [';'] + blank + [';'] + b == a + [';'] + (blank + [';'] + b);
    assert Trim(blank) == [];
    var paths := ParsePaths(a + [';'] + blank + [';'] + b);
    assert paths == ParsePaths(a) + ([""] + ParsePaths(b));
    assert paths[..|ParsePaths(a)|] == ParsePaths(a);
  }

  /** The `foreach` over the paths with its early return: the first path that does not exist, if any. */
  method FirstMissing(paths: seq<string>, fs: FileSystem) returns (missing: Option<nat>)
    ensures missing.None? ==> FirstExist(paths, fs, |paths|)
    ensures missing.Some? ==>
      missing.value < |paths| && !FileExists(fs, paths[missing.value]) && FirstExist(paths, fs, missing.value)
  {
    var i := 0;
    while i < |paths|
      invariant i <= |paths| && FirstExist(paths, fs, i)
    {
      if !FileExists(fs, paths[i]) {
        return Some(i);
      }
      i := i + 1;
    }
    return None;
  }

  // ---------------------------------------------------------------------------
  // The merge
  // ---------------------------------------------------------------------------

  /** `PdfMerger` over the output document: the pages merged into it so far. */
  class PdfMerger {
    var pages: seq<Page>

    constructor()
      ensures pages == []
    {
      pages := [];
    }

    /** `Merge(source, fromPage, toPage)`: appends pages `fromPage..toPage` (1-based, inclusive) of `source`. */
    method Merge(source: seq<Page>, fromPage: nat, toPage: nat)
      requires 1 <= fromPage <= toPage + 1 <= |source| + 1
      modifies this
      ensures pages == old(pages) + source[fromPage - 1..toPage]
    {
      pages := pages + source[fromPage - 1..toPage];
    }
  }

  /** The sources among the first `n` all open. */
  predicate SourcesOpen(paths: seq<string>, fs: FileSystem, n: nat)
    requires n <= |paths| && FirstExist(paths, fs, |paths|)
  {
    n > 0 ==> SourcesOpen(paths, fs, n - 1) && OpenDocument(fs.files[paths[n - 1]]).Ok?
  }

  /** The documents of the first `n` sources, in order. */
  function Sources(paths: seq<string>, fs: FileSystem, n: nat): (docs: seq<seq<Page>>)
    requires n <= |paths| && FirstExist(paths, fs, |paths|) && SourcesOpen(paths, fs, n)
    ensures |docs| == n
  {
    if n == 0 then [] else Sources(paths, fs, n - 1) + [OpenDocument(fs.files[paths[n - 1]]).value]
  }

  /** The report after source `i` (1-based) of `n`: `i / n`. */
  function MergeReport(i: nat, n: nat): ToolProgress {
    ToolProgress(Some(Ratio(i, n)), FilesMerged(i, n))
  }

  /** One report per source merged, numbered from 1. */
  predicate MergeReported(n: nat, progress: seq<ToolProgress>)
    decreases |progress|
  {
    progress != [] ==>
      MergeReported(n, progress[..|progress| - 1])
      && progress[|progress| - 1] == MergeReport(|progress|, n)
  }

  /** The first `|progress|` sources are merged: they opened, their pages are in, and each was reported. */
  ghost predicate Merged(paths: seq<string>, fs: FileSystem, pages: seq<Page>, progress: seq<ToolProgress>)
    requires FirstExist(paths, fs, |paths|)
  {
    |progress| <= |paths| && SourcesOpen(paths, fs, |progress|)
    && pages == Concat(Sources(paths, fs, |progress|))
    && MergeReported(|paths|, progress)
  }

  /** Merging source `|progress|` extends what is merged by its pages and its report. */
  lemma MergedStep(paths: seq<string>, fs: FileSystem, pages: seq<Page>, progress: seq<ToolProgress>,
                   doc: seq<Page>, report: ToolProgress)
    requires FirstExist(paths, fs, |paths|) && Merged(paths, fs, pages, progress) && |progress| < |paths|
    requires OpenDocument(fs.files[paths[|progress|]]) == Ok(doc)
    requires report == MergeReport(|progress| + 1, |paths|)
    ensures Merged(paths, fs, pages + doc, progress + [report])
  {
    var n := |progress|;
    assert (progress + [report])[..n] == progress;
    assert Sources(paths, fs, n + 1)[..n] == Sources(paths, fs, n);
  }

  /** Report `i` is that of source `i + 1`. */
  lemma {:induction false} MergeReportedAt(n: nat, progress: seq<ToolProgress>, i: nat)
    requires MergeReported(n, progress) && i < |progress|
    ensures progress[i] == MergeReport(i + 1, n)
  {
    if i < |progress| - 1 {
      var shorter := progress[..|progress| - 1];
      MergeReportedAt(n, shorter, i);
      assert shorter[i] == progress[i];
    }
  }

  /** Source `i` among the first `n` opens. */
  lemma {:induction false} SourcesOpenAt(paths: seq<string>, fs: FileSystem, n: nat, i: nat)
    requires n <= |paths| && FirstExist(paths, fs, |paths|) && SourcesOpen(paths, fs, n) && i < n
    ensures OpenDocument(fs.files[paths[i]]).Ok?
    decreases n
  {
    if i < n - 1 {
      SourcesOpenAt(paths, fs, n - 1, i);
    }
  }

  /** The `catch` clause that takes each kind of fault. */
  datatype CatchClause = PdfIoClause | AccessDeniedClause | IoClause | GeneralClause

  function ClauseOf(kind: FaultKind): CatchClause {
    match kind
    case PdfIo => PdfIoClause
    case AccessDenied => AccessDeniedClause
    case Io => IoClause
    // iText's PdfException is not one of the clauses above
    case Pdf => GeneralClause
    case Cryptographic => GeneralClause
    case Unexpected => GeneralClause
  }

  /**
   * The failure message of a caught fault, by the first `catch` clause that
   * takes it: a fixed text when access is denied, otherwise a heading naming
   * the clause, then the fault's own text.
   */
  function FailureMessage(f: Fault): (m: string)
    ensures ClauseOf(f.kind) == AccessDeniedClause ==> m == AccessDeniedMessage
    ensures ClauseOf(f.kind) != AccessDeniedClause ==> |f.message| < |m| && m[|m| - |f.message|..] == f.message
  {
    match ClauseOf(f.kind)
    case PdfIoClause => "Errore PDF: " + f.message
    case AccessDeniedClause => AccessDeniedMessage
    case IoClause => "Errore I/O: " + f.message
    case GeneralClause => "Errore inatteso: " + f.message
  }

  lemma AccessDeniedInitial()
    ensures |AccessDeniedMessage| > 0 && AccessDeniedMessage[0] == 'A'
  {
    var head := "Accesso";
    assert head[0] == 'A';
  }

  /** Faults caught by different clauses give different messages, whatever their own messages say. */
  lemma FailureMessagesDistinct(f: Fault, g: Fault)
    requires ClauseOf(f.kind) != ClauseOf(g.kind)
    ensures FailureMessage(f) != FailureMessage(g)
  {
    var m, n := FailureMessage(f), FailureMessage(g);
    if ClauseOf(f.kind) == AccessDeniedClause || ClauseOf(g.kind) == AccessDeniedClause {
      AccessDeniedInitial();
      assert m[0] != n[0];
    } else {
      assert m[7] != n[7];
    }
  }

  /**
   * The contract of the `Task.Run` of `RunAsync`. Poll 0 is the start of the
   * task; the output writer is then opened, and source `i` polls the token
   * (poll `i + 1`) before it is opened and merged. Once the writer is open,
   * leaving `Task.Run` in any way disposes the output document, which writes
   * the pages merged so far: all of them at the end, those of the sources
   * before the one that failed or was cancelled otherwise. A cancellation
   * then deletes the output file if it exists (a failed deletion is
   * swallowed); a fault leaves it.
   */
  ghost predicate MergePhase(paths: seq<string>, fs: FileSystem, output: string, token: CancellationToken,
                             outcome: Outcome, events: seq<Event>, progress: seq<ToolProgress>)
    requires FirstExist(paths, fs, |paths|)
  {
    var done := |progress|;
    done <= |paths| && SourcesOpen(paths, fs, done) && MergeReported(|paths|, progress)
    && var written := [OpenedWriter(output, DefaultSettings), WroteDocument(output, Concat(Sources(paths, fs, done)))];
    match outcome
    case Cancelled =>
      if token.IsCancellationRequested(0) then
        done == 0 && events == DeleteIfExists(fs, [], output)
      else
        done < |paths| && token.IsCancellationRequested(done + 1) && !token.IsCancellationRequested(done)
        && output !in fs.writeFaults && events == DeleteIfExists(fs, written, output)
    case Completed(Failure(message)) =>
      !token.IsCancellationRequested(done)
      && if output in fs.writeFaults then
           done == 0 && events == [] && message == FailureMessage(fs.writeFaults[output])
         else
           done < |paths| && !token.IsCancellationRequested(done + 1) && events == written
           && OpenDocument(fs.files[paths[done]]).Err?
           && message == FailureMessage(OpenDocument(fs.files[paths[done]]).error)
    case Completed(Success(result)) =>
      result == output && done == |paths| && !token.IsCancellationRequested(done)
      && output !in fs.writeFaults && events == written
  }

  /** Leaving the loop before source `|progress|`, cancelled or failed, after the sources before it were merged. */
  lemma LeftEarly(paths: seq<string>, fs: FileSystem, output: string, token: CancellationToken,
                  pages: seq<Page>, progress: seq<ToolProgress>, outcome: Outcome, events: seq<Event>)
    requires FirstExist(paths, fs, |paths|) && Merged(paths, fs, pages, progress) && |progress| < |paths|
    requires !token.IsCancellationRequested(0) && !token.IsCancellationRequested(|progress|)
    requires output !in fs.writeFaults
    requires var written := [OpenedWriter(output, DefaultSettings), WroteDocument(output, pages)];
      if token.IsCancellationRequested(|progress| + 1) then
        outcome == Cancelled && events == DeleteIfExists(fs, written, output)
      else
        OpenDocument(fs.files[paths[|progress|]]).Err? && events == written
        && outcome == Completed(Failure(FailureMessage(OpenDocument(fs.files[paths[|progress|]]).error)))
    ensures MergePhase(paths, fs, output, token, outcome, events, progress)
  {
  }

  /** Leaving the loop after every source was merged. */
  lemma MergedEverySource(paths: seq<string>, fs: FileSystem, output: string, token: CancellationToken,
                          pages: seq<Page>, progress: seq<ToolProgress>)
    requires FirstExist(paths, fs, |paths|) && Merged(paths, fs, pages, progress) && |progress| == |paths|
    requires !token.IsCancellationRequested(|progress|) && output !in fs.writeFaults
    ensures MergePhase(paths, fs, output, token, Completed(Success(output)),
                       [OpenedWriter(output, DefaultSettings), WroteDocument(output, pages)], progress)
  {
  }

  /** Leaving before the first source: cancelled at the start, or the output cannot be created. */
  lemma StoppedBeforeSources(paths: seq<string>, fs: FileSystem, output: string, token: CancellationToken,
                             outcome: Outcome, events: seq<Event>)
    requires FirstExist(paths, fs, |paths|)
    requires token.IsCancellationRequested(0) ==> outcome == Cancelled && events == DeleteIfExists(fs, [], output)
    requires !token.IsCancellationRequested(0) ==>
      output in fs.writeFaults && outcome == Completed(Failure(FailureMessage(fs.writeFaults[output]))) && events == []
    ensures MergePhase(paths, fs, output, token, outcome, events, [])
  {
  }

  /**
   * The body of the loop once source `|progress|` has polled the token: the
   * source is opened (its fault, if any, is returned), merged and reported.
   */
  method MergeSource(paths: seq<string>, fs: FileSystem, merger: PdfMerger, progress: seq<ToolProgress>)
    returns (failure: Option<Fault>, progress': seq<ToolProgress>)
    requires FirstExist(paths, fs, |paths|) && Merged(paths, fs, merger.pages, progress) && |progress| < |paths|
    modifies merger
    ensures failure.Some? ==>
      OpenDocument(fs.files[paths[|progress|]]) == Err(failure.value)
      && merger.pages == old(merger.pages) && progress' == progress
    ensures failure.None? ==> Merged(paths, fs, merger.pages, progress') && |progress'| == |progress| + 1
  {
    var source := OpenDocument(fs.files[paths[|progress|]]);
    if source.Err? {
      return Some(source.error), progress;
    }
    var before := merger.pages;
    merger.Merge(source.value, 1, |source.value|);
    assert source.value[0..|source.value|] == source.value;
    var report := MergeReport(|progress| + 1, |paths|);
    MergedStep(paths, fs, before, progress, source.value, report);
    failure, progress' := None, progress + [report];
  }

  /**
   * The `for` loop over the sources: source `i` polls the token (poll
   * `i + 1`), then is opened, merged and reported. It stops at the first
   * poll that sees cancellation, at the first source that fails to open, or
   * after the last source.
   */
  method MergeLoop(paths: seq<string>, fs: FileSystem, token: CancellationToken, merger: PdfMerger)
    returns (cancelled: bool, failure: Option<Fault>, progress: seq<ToolProgress>)
    requires FirstExist(paths, fs, |paths|) && !token.IsCancellationRequested(0) && merger.pages == []
    modifies merger
    ensures Merged(paths, fs, merger.pages, progress) && !token.IsCancellationRequested(|progress|)
    ensures cancelled ==> failure.None? && |progress| < |paths| && token.IsCancellationRequested(|progress| + 1)
    ensures failure.Some? ==>
      !cancelled && |progress| < |paths| && !token.IsCancellationRequested(|progress| + 1)
      && OpenDocument(fs.files[paths[|progress|]]) == Err(failure.value)
    ensures !cancelled && failure.None? ==> |progress| == |paths|
  {
    progress := [];
    var i := 0;
    while i < |paths|
      invariant i == |progress| && !token.IsCancellationRequested(i)
      invariant Merged(paths, fs, merger.pages, progress)
    {
      if token.IsCancellationRequested(i + 1) {
        return true, None, progress;
      }
      failure, progress := MergeSource(paths, fs, merger, progress);
      if failure.Some? {
        return false, failure, progress;
      }
      i := i + 1;
    }
    return false, None, progress;
  }

  /** The `Task.Run` of `RunAsync` and its cancellation clean-up, over paths that all exist. */
  method MergeAll(paths: seq<string>, fs: FileSystem, output: string, token: CancellationToken)
    returns (outcome: Outcome, events: seq<Event>, progress: seq<ToolProgress>)
    requires FirstExist(paths, fs, |paths|)
    ensures MergePhase(paths, fs, output, token, outcome, events, progress)
  {
    progress := [];
    if token.IsCancellationRequested(0) {
      outcome, events := Cancelled, DeleteIfExists(fs, [], output);
      StoppedBeforeSources(paths, fs, output, token, outcome, events);
      return;
    }
    if output in fs.writeFaults {
      outcome, events := Completed(Failure(FailureMessage(fs.writeFaults[output]))), [];
      StoppedBeforeSources(paths, fs, output, token, outcome, events);
      return;
    }
    var merger := new PdfMerger();
    var cancelled, failure;
    cancelled, failure, progress := MergeLoop(paths, fs, token, merger);
    // Disposing the output document writes the pages merged so far.
    var written := [OpenedWriter(output, DefaultSettings), WroteDocument(output, merger.pages)];
    if cancelled {
      outcome, events := Cancelled, DeleteIfExists(fs, written, output);
      LeftEarly(paths, fs, output, token, merger.pages, progress, outcome, events);
    } else if failure.Some? {
      outcome, events := Completed(Failure(FailureMessage(failure.value))), written;
      LeftEarly(paths, fs, output, token, merger.pages, progress, outcome, events);
    } else {
      MergedEverySource(paths, fs, output, token, merger.pages, progress);
      outcome, events := Completed(Success(output)), written;
    }
  }

  // ---------------------------------------------------------------------------
  // RunAsync
  // ---------------------------------------------------------------------------

  /** Both the input list and the output path are given. */
  predicate Named(context: ToolContext) {
    !IsNullOrWhiteSpace(context.inputFilePath) && !IsNullOrWhiteSpace(context.outputFilePath)
  }

  /** The run got past validation: input and output named, at least two paths, all of them existing. */
  predicate Accepted(context: ToolContext, fs: FileSystem) {
    Named(context) && |ParsePaths(context.inputFilePath.value)| >= 2
    && FirstExist(ParsePaths(context.inputFilePath.value), fs, |ParsePaths(context.inputFilePath.value)|)
  }

  /** `RunAsync`: validation in order (input, output, count, existence), then the merge. */
  method Run(context: ToolContext, fs: FileSystem) returns (run: ToolRun)
    ensures IsNullOrWhiteSpace(context.inputFilePath) ==> run == Rejected(MissingInputMessage)
    ensures !IsNullOrWhiteSpace(context.inputFilePath) && IsNullOrWhiteSpace(context.outputFilePath) ==>
      run == Rejected(MissingOutputMessage)
    ensures Named(context) && |ParsePaths(context.inputFilePath.value)| < 2 ==> run == Rejected(TooFewMessage)
    ensures (Named(context) && |ParsePaths(context.inputFilePath.value)| >= 2
             && !FirstExist(ParsePaths(context.inputFilePath.value), fs, |ParsePaths(context.inputFilePath.value)|)) ==>
      var paths := ParsePaths(context.inputFilePath.value);
      exists i :: 0 <= i < |paths| && !FileExists(fs, paths[i]) && FirstExist(paths, fs, i)
        && run == Rejected(NotFoundMessage(paths[i]))
    ensures Accepted(context, fs) ==>
      MergePhase(ParsePaths(context.inputFilePath.value), fs, context.outputFilePath.value,
                 context.cancellationToken, run.outcome, run.events, run.progress)
  {
    if IsNullOrWhiteSpace(context.inputFilePath) {
      return Rejected(MissingInputMessage);
    }
    if IsNullOrWhiteSpace(context.outputFilePath) {
      return Rejected(MissingOutputMessage);
    }
    var paths := ParsePaths(context.inputFilePath.value);
    if |paths| < 2 {
      return Rejected(TooFewMessage);
    }
    var missing := FirstMissing(paths, fs);
    if missing.Some? {
      return Rejected(NotFoundMessage(paths[missing.value]));
    }
    var outcome, events, progress := MergeAll(paths, fs, context.outputFilePath.value, context.cancellationToken);
    run := ToolRun(outcome, events, progress);
  }

  // ---------------------------------------------------------------------------
  // Properties of a run
  // ---------------------------------------------------------------------------

  /** On success the output holds every source's pages, in input order: source `i` right after sources `0..i`. */
  lemma MergedInOrder(paths: seq<string>, fs: FileSystem, output: string, token: CancellationToken,
                      outcome: Outcome, events: seq<Event>, progress: seq<ToolProgress>, i: nat)
    requires FirstExist(paths, fs, |paths|) && MergePhase(paths, fs, output, token, outcome, events, progress)
    requires outcome == Completed(Success(output)) && i < |paths|
    ensures SourcesOpen(paths, fs, i) && SourcesOpen(paths, fs, i + 1)
    ensures var docs := Sources(paths, fs, |paths|);
      events[|events| - 1] == WroteDocument(output,
        Concat(Sources(paths, fs, i)) + OpenDocument(fs.files[paths[i]]).value + Concat(docs[i + 1..]))
  {
    var n := |paths|;
    SourcesOpenPrefix(paths, fs, n, i + 1);
    SourcesOpenPrefix(paths, fs, n, i);
    var docs := Sources(paths, fs, n);
    SourcesPrefix(paths, fs, n, i);
    SourcesPrefix(paths, fs, n, i + 1);
    assert docs[i] == Sources(paths, fs, i + 1)[i];
    assert docs == docs[..i] + [docs[i]] + docs[i + 1..];
    ConcatSplit(docs[..i], docs[i], docs[i + 1..]);
  }

  /** Opening the first `n` sources opens the first `m <= n`. */
  lemma {:induction false} SourcesOpenPrefix(paths: seq<string>, fs: FileSystem, n: nat, m: nat)
    requires n <= |paths| && FirstExist(paths, fs, |paths|) && SourcesOpen(paths, fs, n) && m <= n
    ensures SourcesOpen(paths, fs, m)
    decreases n
  {
    if m < n {
      SourcesOpenPrefix(paths, fs, n - 1, m);
    }
  }

  /** The documents of the first `m` sources are a prefix of those of the first `n`. */
  lemma {:induction false} SourcesPrefix(paths: seq<string>, fs: FileSystem, n: nat, m: nat)
    requires n <= |paths| && FirstExist(paths, fs, |paths|) && SourcesOpen(paths, fs, n) && m <= n
    ensures SourcesOpen(paths, fs, m) && Sources(paths, fs, n)[..m] == Sources(paths, fs, m)
    decreases n
  {
    SourcesOpenPrefix(paths, fs, n, m);
    if m < n {
      SourcesPrefix(paths, fs, n - 1, m);
      assert Sources(paths, fs, n)[..n - 1] == Sources(paths, fs, n - 1);
    }
  }

  /** The reports count the sources merged, one more each time, and end at 100% when all are merged. */
  lemma MergeProgress(paths: seq<string>, fs: FileSystem, output: string, token: CancellationToken,
                      outcome: Outcome, events: seq<Event>, progress: seq<ToolProgress>)
    requires FirstExist(paths, fs, |paths|) && MergePhase(paths, fs, output, token, outcome, events, progress)
    ensures MonotoneOver(progress, |paths|)
    ensures forall i :: 0 <= i < |progress| ==> progress[i].percentage.value.done == i + 1
    ensures outcome.Completed? && outcome.result.Success? && |paths| > 0 ==> EndsComplete(progress)
  {
    forall i | 0 <= i < |progress|
      ensures progress[i] == MergeReport(i + 1, |paths|)
    {
      MergeReportedAt(|paths|, progress, i);
    }
  }

  /**
   * A cancelled merge leaves no output file behind, whether or not it existed
   * before, unless its deletion fails; then the file stays if it existed
   * when the clean-up ran: always once the writer was opened.
   */
  lemma CancelledLeavesNoOutput(paths: seq<string>, fs: FileSystem, output: string, token: CancellationToken,
                                outcome: Outcome, events: seq<Event>, progress: seq<ToolProgress>)
    requires FirstExist(paths, fs, |paths|) && MergePhase(paths, fs, output, token, outcome, events, progress)
    requires outcome == Cancelled
    ensures output !in fs.deleteFaults ==> !ExistsAfter(fs, events, output)
    ensures output in fs.deleteFaults && !token.IsCancellationRequested(0) ==> ExistsAfter(fs, events, output)
    ensures token.IsCancellationRequested(0) ==>
      (ExistsAfter(fs, events, output) <==> output in fs.files && output in fs.deleteFaults)
  {
  }

  /**
   * A source that fails to open after the writer was opened leaves the output
   * file behind, holding exactly the pages of the sources before it.
   */
  lemma FailureKeepsMergedPrefix(paths: seq<string>, fs: FileSystem, output: string, token: CancellationToken,
                                 outcome: Outcome, events: seq<Event>, progress: seq<ToolProgress>)
    requires FirstExist(paths, fs, |paths|) && MergePhase(paths, fs, output, token, outcome, events, progress)
    requires outcome.Completed? && outcome.result.Failure? && output !in fs.writeFaults
    ensures |progress| < |paths| && OpenDocument(fs.files[paths[|progress|]]).Err?
    ensures ExistsAfter(fs, events, output)
    ensures SourcesOpen(paths, fs, |progress|)
    ensures events[|events| - 1] == WroteDocument(output, Concat(Sources(paths, fs, |progress|)))
    ensures forall i :: 0 <= i < |progress| ==> OpenDocument(fs.files[paths[i]]).Ok?
  {
    forall i | 0 <= i < |progress|
      ensures OpenDocument(fs.files[paths[i]]).Ok?
    {
      SourcesOpenAt(paths, fs, |progress|, i);
    }
  }
}
