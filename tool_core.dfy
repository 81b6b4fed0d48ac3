/**
 * The execution contract shared by every tool: the result of a run
 * (ToolResult.cs), the request bundle (ToolContext.cs), progress reports
 * (ToolProgress.cs), the tool descriptor (ITool.cs), and the environment a
 * run observes: a snapshot of the file system, a cancellation token, and the
 * ordered trace of what the run did.
 */
module ToolCore {
  import opened Values
  import opened Text

  // ---------------------------------------------------------------------------
  // ToolResult
  // ---------------------------------------------------------------------------

  /**
   * The outcome of a run. The two constructors are the only factories
   * (`ToolResult.Success`, `ToolResult.Failure`), and a datatype value cannot
   * change once built, as the get-only properties of the source promise.
   */
  datatype ToolResult = Success(output: string) | Failure(error: string) {

    predicate IsSuccess() {
      Success?
    }

    /** `ToolResult.Output`: the payload of a success, null otherwise. */
    function Output(): (o: Option<string>)
      ensures o.Some? <==> IsSuccess()
      ensures IsSuccess() ==> o.value == output
    {
      if Success? then Some(output) else None
    }

    /** `ToolResult.Error`: the message of a failure, null otherwise. */
    function Error(): (e: Option<string>)
      ensures e.Some? <==> !IsSuccess()
      ensures !IsSuccess() ==> e.value == error
    {
      if Failure? then Some(error) else None
    }
  }

  /** Exactly one of `Output` and `Error` is set, and `IsSuccess` says which. */
  lemma ExactlyOneFieldSet(r: ToolResult)
    ensures r.IsSuccess() <==> r.Output().Some? && r.Error().None?
    ensures !r.IsSuccess() <==> r.Output().None? && r.Error().Some?
  {
  }

  // ---------------------------------------------------------------------------
  // ITool descriptor
  // ---------------------------------------------------------------------------

  /** The identifying members of an `ITool`: `Id`, `Name` and `Description`. */
  datatype Tool = Tool(id: string, name: string, description: string)

  // ---------------------------------------------------------------------------
  // ToolContext
  // ---------------------------------------------------------------------------

  /** A value stored in `ToolContext.Parameters` (a dictionary of objects): a string, or anything else. */
  datatype ParamValue = StringValue(s: string) | OtherValue

  /**
   * A cooperative cancellation token. Each tool numbers the points where it
   * polls the token, from 0; `cancelledAtPoll` is the first poll that sees
   * cancellation requested (None: never). Once requested it stays requested.
   */
  datatype CancellationToken = CancellationToken(cancelledAtPoll: Option<nat>) {
    predicate IsCancellationRequested(poll: nat) {
      cancelledAtPoll.Some? && cancelledAtPoll.value <= poll
    }
  }

  /** `ToolContext`: the request of one run. The progress and log sinks are replaced by the returned trace. */
  datatype ToolContext = ToolContext(
    inputFilePath: Option<string>,
    outputFilePath: Option<string>,
    parameters: Option<map<string, ParamValue>>,
    cancellationToken: CancellationToken)

  /** `context.Parameters?.GetValueOrDefault(key) as string`: null unless the key holds a string. */
  function StringParameter(parameters: Option<map<string, ParamValue>>, key: string): (v: Option<string>)
    ensures v.Some? <==> parameters.Some? && key in parameters.value && parameters.value[key].StringValue?
    ensures v.Some? ==> parameters.value[key] == StringValue(v.value)
  {
    if parameters.Some? && key in parameters.value && parameters.value[key].StringValue? then
      Some(parameters.value[key].s)
    else None
  }

  /** `parameter ?? fallback`. */
  function OrDefault(v: Option<string>, fallback: string): string {
    if v.Some? then v.value else fallback
  }

  // ---------------------------------------------------------------------------
  // ToolProgress
  // ---------------------------------------------------------------------------

  /** The integer surrogate of a percentage: `done / total * 100`. */
  datatype Ratio = Ratio(done: nat, total: nat)

  /** The content of a progress message (its wording and number formatting are not modelled). */
  datatype ProgressMessage =
    | BytesRead(processed: nat, totalLength: Option<nat>)
    | PagesExtracted(startPage: nat, endPage: nat)
    | RangeExtracted(fileCount: nat, rangeCount: nat)
    | FilesMerged(merged: nat, fileCount: nat)
    | PageCompressed(page: nat, totalPages: nat)

  /** `ToolProgress`: a percentage (None: indeterminate) and a message. */
  datatype ToolProgress = ToolProgress(percentage: Option<Ratio>, message: ProgressMessage)

  /** All reports are determinate over the same total, and their numerators never go back. */
  predicate MonotoneOver(reports: seq<ToolProgress>, total: nat) {
    (forall i :: 0 <= i < |reports| ==>
      reports[i].percentage.Some? && reports[i].percentage.value.total == total)
    && (forall i, j :: 0 <= i < j < |reports| ==>
      reports[i].percentage.value.done <= reports[j].percentage.value.done)
  }

  /** The last report reads 100%. */
  predicate EndsComplete(reports: seq<ToolProgress>) {
    |reports| > 0 && reports[|reports| - 1].percentage.Some?
    && reports[|reports| - 1].percentage.value.done == reports[|reports| - 1].percentage.value.total
  }

  // ---------------------------------------------------------------------------
  // Faults: the exceptions the tools catch
  // ---------------------------------------------------------------------------

  datatype FaultKind =
    | PdfIo           // iText.IO.Exceptions.IOException
    | Pdf             // iText.Kernel.Exceptions.PdfException
    | AccessDenied    // UnauthorizedAccessException
    | Io              // System.IO.IOException and its subclasses
    | Cryptographic   // CryptographicException
    | Unexpected      // any other exception

  /** A raised exception: its kind, `Message` and the `Message` of its `InnerException`, if any. */
  datatype Fault = Fault(kind: FaultKind, message: string, inner: Option<string>)

  // ---------------------------------------------------------------------------
  // The file system as one run sees it, and the trace of what the run does
  // ---------------------------------------------------------------------------

  /** One PDF page, opaque to the tools. */
  datatype Page = Page(content: seq<byte>)

  /**
   * A file: the length `FileInfo.Length` reports, the bytes a stream reads,
   * the fault raised when the file is opened for reading (if any), and what
   * the PDF codec makes of it: its pages, or the fault it raises.
   */
  datatype FileEntry = FileEntry(
    length: nat,
    bytes: seq<byte>,
    openFault: Option<Fault>,
    document: Result<seq<Page>, Fault>)

  /** `new PdfDocument(new PdfReader(path))`: the file is opened, then parsed. */
  function OpenDocument(entry: FileEntry): Result<seq<Page>, Fault> {
    if entry.openFault.Some? then Err(entry.openFault.value) else entry.document
  }

  /** The concatenation of a list of documents, in list order. */
  function Concat(docs: seq<seq<Page>>): seq<Page> {
    if docs == [] then [] else Concat(docs[..|docs| - 1]) + docs[|docs| - 1]
  }

  /** Concatenating two lists of documents concatenates their concatenations. */
  lemma {:induction false} ConcatAppend(a: seq<seq<Page>>, b: seq<seq<Page>>)
    ensures Concat(a + b) == Concat(a) + Concat(b)
    decreases |b|
  {
    if b == [] {
      assert a + b == a;
    } else {
      var ab, front := a + b, b[..|b| - 1];
      assert ab[..|ab| - 1] == a + front && ab[|ab| - 1] == b[|b| - 1];
      ConcatAppend(a, front);
    }
  }

  /** A document sits in the concatenation right after the documents before it and right before those after it. */
  lemma ConcatSplit(front: seq<seq<Page>>, doc: seq<Page>, rest: seq<seq<Page>>)
    ensures Concat(front + [doc] + rest) == Concat(front) + doc + Concat(rest)
  {
    ConcatAppend(front + [doc], rest);
    assert (front + [doc])[..|front|] == front;
  }

  /**
   * The files that exist (`File.Exists`), the paths whose creation raises a
   * fault, and the paths whose deletion fails (a locked or read-only file).
   */
  datatype FileSystem = FileSystem(files: map<string, FileEntry>, writeFaults: map<string, Fault>,
                                   deleteFaults: set<string>)

  /** `File.Exists(path)`: false for the empty path whatever the snapshot holds, otherwise whether the file is there. */
  predicate FileExists(fs: FileSystem, path: string) {
    path != [] && path in fs.files
  }

  /** The settings a `PdfWriter` is opened with. */
  datatype WriterSettings = DefaultSettings | CompressionSettings(compressionLevel: int, fullCompression: bool)

  /** What a run does outside itself, in order. */
  datatype Event =
    | CreatedDirectory(path: string)
    | OpenedWriter(path: string, settings: WriterSettings)
    | WroteDocument(path: string, pages: seq<Page>)
    | DeletedFile(path: string)
    | SkippedRange(startPage: int, endPage: int)
    | NotSmallerNote(originalSize: nat, compressedSize: nat)

  /** How a run ends: with a result, or by letting the cancellation propagate. */
  datatype Outcome = Completed(result: ToolResult) | Cancelled

  /** Everything observable about one run. */
  datatype ToolRun = ToolRun(outcome: Outcome, events: seq<Event>, progress: seq<ToolProgress>)

  /** A run that fails with `message` before doing anything. */
  function Rejected(message: string): ToolRun {
    ToolRun(Completed(Failure(message)), [], [])
  }

  /** Whether `path` exists once `events` have happened on top of `fs`. */
  function ExistsAfter(fs: FileSystem, events: seq<Event>, path: string): bool {
    if events == [] then path in fs.files
    else
      var last := events[|events| - 1];
      if last.DeletedFile? && last.path == path then false
      else if (last.OpenedWriter? || last.WroteDocument?) && last.path == path then true
      else ExistsAfter(fs, events[..|events| - 1], path)
  }

  /**
   * The clean-up before a cancellation propagates: an existing `path` is
   * deleted, and a failure to delete it is swallowed, leaving the file.
   */
  function DeleteIfExists(fs: FileSystem, events: seq<Event>, path: string): (cleaned: seq<Event>)
    ensures ExistsAfter(fs, cleaned, path) <==> ExistsAfter(fs, events, path) && path in fs.deleteFaults
    ensures |events| <= |cleaned| <= |events| + 1 && cleaned[..|events|] == events
    ensures !ExistsAfter(fs, events, path) || path in fs.deleteFaults ==> cleaned == events
  {
    if ExistsAfter(fs, events, path) && path !in fs.deleteFaults then
      var cleaned := events + [DeletedFile(path)];
      assert cleaned[..|events|] == events;
      cleaned
    else events
  }
}
