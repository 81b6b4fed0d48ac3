/**
 * `PdfCompressTool` ("pdf.compress"): rewrites a PDF document with a
 * compression level chosen by name and full compression on, reporting one
 * step per page, and compares the sizes of the input and the output.
 */
module PdfCompressTool {
  import opened Values
  import opened Text
  import opened ToolCore

  const ToolId: string := "pdf.compress"

  const MissingInputMessage: string := "File PDF non specificato."
  const NotFoundMessage: string := "Il file PDF specificato non esiste."
  const MissingOutputMessage: string := "Percorso file di output non specificato."

  // ---------------------------------------------------------------------------
  // Compression level
  // ---------------------------------------------------------------------------

  /**
   * A value of the C# enum `CompressionLevel`: one of its three named
   * members, or an integer with no name (an enum holds any `int`).
   */
  datatype CompressionLevel = Low | Medium | High | Unnamed(value: int)

  /** The enum value with underlying integer `v`: Low = 0, Medium = 1, High = 2. */
  function LevelOfValue(v: int): (level: CompressionLevel)
    ensures level.Unnamed? <==> v !in {0, 1, 2}
    ensures level.Unnamed? ==> level.value == v
  {
    if v == 0 then Low else if v == 1 then Medium else if v == 2 then High else Unnamed(v)
  }

  /** A level the enum names, as `ToString` writes it. */
  function LevelName(level: CompressionLevel): string
    requires !level.Unnamed?
  {
    match level
    case Low => "Low"
    case Medium => "Medium"
    case High => "High"
  }

  /** A character that makes `Enum.TryParse` read the text as a number: an ASCII digit or a sign. */
  predicate StartsNumber(c: char) {
    IsDigit(c) || c == '-' || c == '+'
  }

  /**
   * `Enum.TryParse<CompressionLevel>(s, out level)`, with the fallback to
   * Medium when it fails. Leading white space (`char.IsWhiteSpace`) is
   * skipped. Text that then starts with a digit or a sign is read only as
   * the underlying integer, in the invariant culture: digits, then ASCII
   * white space and '\0' characters at most, so other trailing white space
   * makes it fail. Any other text must be a name once trimmed at both ends,
   * matched exactly, case included.
   */
  function ParseLevel(s: string): CompressionLevel {
    var v := s[LeadingWhite(s, Unicode)..];
    if v != [] && StartsNumber(v[0]) then
      match ParseInteger(v)
      case Some(n) => LevelOfValue(n)
      case None => Medium
    else
      var t := Trim(s);
      if t == "Low" then Low
      else if t == "Medium" then Medium
      else if t == "High" then High
      else Medium
  }

  /** The `compressionLevel` parameter, "Medium" when it is missing or not a string. */
  function LevelOf(parameters: Option<map<string, ParamValue>>): CompressionLevel {
    ParseLevel(OrDefault(StringParameter(parameters, "compressionLevel"), "Medium"))
  }

  /** A name neither starts like a number nor has white space at either end. */
  lemma LevelNameEnds(level: CompressionLevel)
    requires !level.Unnamed?
    ensures var name := LevelName(level);
      name != [] && !StartsNumber(name[0]) && !IsWhiteSpace(name[0]) && !IsWhiteSpace(name[|name| - 1])
  {
    assert LevelName(level)[0] in "LMH" && LevelName(level)[|LevelName(level)| - 1] in "wmh";
  }

  /** Each name parses back to its level, with any white space around it. */
  lemma ParseLevelName(level: CompressionLevel, before: string, after: string)
    requires !level.Unnamed?
    requires AllWhite(Unicode, before) && AllWhite(Unicode, after)
    ensures ParseLevel(before + LevelName(level) + after) == level
  {
    var name := LevelName(level);
    var s := before + name + after;
    LevelNameEnds(level);
    TrimAround(before, name, after);
    assert s[|before|..][0] == name[0];
    assert !StartsNumber(s[LeadingWhite(s, Unicode)..][0]);
  }

  /** A missing parameter, or one that is not a string, means Medium. */
  lemma MissingLevelIsMedium(parameters: Option<map<string, ParamValue>>)
    requires StringParameter(parameters, "compressionLevel").None?
    ensures LevelOf(parameters) == Medium
  {
    ParseLevelName(Medium, "", "");
    assert "" + LevelName(Medium) + "" == "Medium";
  }

  /** Text that is neither a level name nor starts like a number falls back to Medium. */
  lemma UnparsableIsMedium(s: string)
    requires Trim(s) !in {"Low", "Medium", "High"}
    requires Trim(s) == [] || !StartsNumber(Trim(s)[0])
    ensures ParseLevel(s) == Medium
  {
    TrimStartHead(s);
  }

  /** Names in another case are not names. */
  lemma WrongCaseIsMedium()
    ensures ParseLevel("low") == Medium && ParseLevel("HIGH") == Medium
  {
    TrimUntouched("low");
    TrimUntouched("HIGH");
    UnparsableIsMedium("low");
    UnparsableIsMedium("HIGH");
  }

  /**
   * A level written in decimal digits, after any leading white space, is the
   * enum value of that number, named or not; a number too large for 32 bits
   * is not a level and gives Medium.
   */
  lemma NumericLevel(before: string, s: string)
    requires AllWhite(Unicode, before) && s != [] && AllDigits(s)
    ensures ParseLevel(before + s) == if DecimalValue(s) <= Int32Max then LevelOfValue(DecimalValue(s)) else Medium
  {
    assert IsDigit(s[0]);
    LeadingWhitePrefix(before, s, Unicode);
    assert (before + s)[|before|..] == s;
    IntegerDigits(s);
  }

  /** The number may be followed by '\0' characters: "2\0" is High. */
  lemma TrailingNulLevel(s: string)
    requires s != [] && AllDigits(s) && DecimalValue(s) <= Int32Max
    ensures ParseLevel(s + ['\0']) == LevelOfValue(DecimalValue(s))
  {
    var t := s + ['\0'];
    assert IsDigit(t[0]);
    assert t[LeadingWhite(t, Unicode)..] == t;
    IntegerTrailingNul(s);
    IntegerDigits(s);
  }

  /**
   * White space after a number that is not ASCII white space (a no-break
   * space, say) makes the number unparsable, so the level is Medium even
   * though the same character in front would be skipped.
   */
  lemma WideTrailingWhiteIsMedium(s: string, c: char)
    requires s != [] && AllDigits(s) && IsWhiteSpace(c) && !IsNumberWhite(c)
    ensures ParseLevel(s + [c]) == Medium
  {
    var t := s + [c];
    assert IsDigit(t[0]);
    assert t[LeadingWhite(t, Unicode)..] == t;
    IntegerStrayTail(s, c);
  }

  /** "2" followed by a no-break space is Medium, not High. */
  lemma NoBreakSpaceExample()
    ensures ParseLevel("2\U{00A0}") == Medium
  {
    assert "2\U{00A0}" == "2" + ['\U{00A0}'];
    WideTrailingWhiteIsMedium("2", '\U{00A0}');
  }

  /** `GetCompressionLevelValue`: the codec's compression level for an enum value. */
  function LevelValue(level: CompressionLevel): int {
    match level
    case Low => 3
    case Medium => 6
    case High => 9
    case Unnamed(_) => 6
  }

  /** The codec level is always one of 3, 6 and 9, rises with the named level, and is 6 for any unnamed value. */
  lemma LevelValueRange(level: CompressionLevel)
    ensures LevelValue(level) in {3, 6, 9}
    ensures LevelValue(level) == 6 <==> level == Medium || level.Unnamed?
  {
  }

  lemma LevelValueOrder()
    ensures LevelValue(Low) < LevelValue(Medium) < LevelValue(High)
  {
  }

  /** The writer settings of the output: the level's codec value, full compression on. */
  function SettingsFor(level: CompressionLevel): WriterSettings {
    CompressionSettings(LevelValue(level), true)
  }

  // ---------------------------------------------------------------------------
  // FormatFileSize
  // ---------------------------------------------------------------------------

  /** `1024^k`. */
  function Pow1024(k: nat): (p: nat)
    ensures p >= 1
  {
    if k == 0 then 1 else 1024 * Pow1024(k - 1)
  }

  /** The unit names, indexed by `order`. */
  const Sizes: seq<string> := ["B", "KB", "MB", "GB"]

  /**
   * The unit `FormatFileSize` picks: the largest index `k` of `Sizes` with
   * `bytes >= 1024^k`, or 0 when there is none (sizes below 1024 and the
   * negative differences the tool also formats).
   */
  predicate IsUnitIndex(bytes: int, k: nat) {
    k < |Sizes| && (k == 0 || bytes >= Pow1024(k))
    && (k == |Sizes| - 1 || bytes < Pow1024(k + 1))
  }

  /** There is one unit index for each size. */
  lemma UnitIndexUnique(bytes: int, k: nat, j: nat)
    requires IsUnitIndex(bytes, k) && IsUnitIndex(bytes, j)
    ensures k == j
  {
    if k != j {
      var lo, hi := if k < j then k else j, if k < j then j else k;
      PowMonotone(lo + 1, hi);
    }
  }

  lemma {:induction false} PowMonotone(a: nat, b: nat)
    requires a <= b
    ensures Pow1024(a) <= Pow1024(b)
    decreases b
  {
    if a < b {
      PowMonotone(a, b - 1);
    }
  }

  /**
   * `FormatFileSize(bytes)`: the loop that divides by 1024 while the value
   * is at least 1024 and a larger unit remains. The division is exact, as
   * it is in binary floating point, so `len` is `bytes / 1024^order`. The
   * rendering of `len` with "0.##" is not modelled.
   */
  method FormatFileSize(bytes: int) returns (len: real, unit: string)
    ensures exists k: nat :: IsUnitIndex(bytes, k) && unit == Sizes[k] && len == bytes as real / Pow1024(k) as real
  {
    len := bytes as real;
    var order: nat := 0;
    while len >= 1024.0 && order < |Sizes| - 1
      invariant order < |Sizes| && (order == 0 || bytes >= Pow1024(order))
      invariant len == bytes as real / Pow1024(order) as real
    {
      ScaledCompare(bytes, order);
      order := order + 1;
      len := len / 1024.0;
    }
    ScaledCompare(bytes, order);
    unit := Sizes[order];
  }

  /** Comparing the scaled value with 1024 compares the size with the next power. */
  lemma ScaledCompare(bytes: int, order: nat)
    ensures bytes as real / Pow1024(order) as real >= 1024.0 <==> bytes >= Pow1024(order + 1)
    ensures bytes as real / Pow1024(order) as real / 1024.0 == bytes as real / Pow1024(order + 1) as real
  {
    var p := Pow1024(order) as real;
    assert Pow1024(order + 1) as real == 1024.0 * p;
  }

  // ---------------------------------------------------------------------------
  // Failures
  // ---------------------------------------------------------------------------

  /** The message of a fault followed by that of its inner exception, if it has one. */
  function ErrorDetail(f: Fault): (detail: string)
    ensures |f.message| <= |detail| && detail[..|f.message|] == f.message
    ensures f.inner.None? <==> detail == f.message
    ensures f.inner.Some? ==> |detail| == |f.message| + 3 + |f.inner.value|
    ensures f.inner.Some? ==> detail[|detail| - |f.inner.value|..] == f.inner.value
  {
    if f.inner.Some? then f.message + " - " + f.inner.value else f.message
  }

  /** The `catch` clause that takes each kind of fault. */
  datatype CatchClause = PdfClause | PdfIoClause | AccessDeniedClause | IoClause | GeneralClause

  function ClauseOf(kind: FaultKind): CatchClause {
    match kind
    case Pdf => PdfClause
    case PdfIo => PdfIoClause
    case AccessDenied => AccessDeniedClause
    case Io => IoClause
    case Cryptographic => GeneralClause
    case Unexpected => GeneralClause
  }

  /** The fixed text each clause's message starts with. */
  function Heading(c: CatchClause): (h: string)
    ensures |h| > 10 && h[0] == (if c == AccessDeniedClause then 'A' else 'E')
    ensures c !in {AccessDeniedClause, GeneralClause} ==> h[7] == (if c == IoClause then 'I' else 'P')
    ensures c == GeneralClause ==> h[7] == 'i'
    ensures c in {PdfClause, PdfIoClause} ==> h[10] == (if c == PdfClause then ':' else ' ')
  {
    match c
    case PdfClause => "Errore PDF: "
    case PdfIoClause => "Errore PDF I/O: "
    case AccessDeniedClause => "Accesso" + " negato. Verifica i permessi dei file."
    case IoClause => "Errore I/O: "
    case GeneralClause => "Errore inatteso: "
  }

  /** The failure message of a caught fault, by the first `catch` clause that takes it. */
  function FailureMessage(f: Fault): (m: string)
    ensures ClauseOf(f.kind) in {PdfClause, PdfIoClause, GeneralClause} ==> m == Heading(ClauseOf(f.kind)) + ErrorDetail(f)
    ensures ClauseOf(f.kind) == IoClause ==> m == Heading(IoClause) + f.message
    ensures ClauseOf(f.kind) == AccessDeniedClause ==> m == Heading(AccessDeniedClause)
  {
    var heading := Heading(ClauseOf(f.kind));
    match ClauseOf(f.kind)
    case AccessDeniedClause => heading
    case IoClause => heading + f.message
    case _ => heading + ErrorDetail(f)
  }

  /** Faults caught by different clauses give different messages, whatever their own messages say. */
  lemma FailureMessagesDistinct(f: Fault, g: Fault)
    requires ClauseOf(f.kind) != ClauseOf(g.kind)
    ensures FailureMessage(f) != FailureMessage(g)
  {
    var c, d := ClauseOf(f.kind), ClauseOf(g.kind);
    var m, n := FailureMessage(f), FailureMessage(g);
    var i := if c == AccessDeniedClause || d == AccessDeniedClause then 0
             else if c in {PdfClause, PdfIoClause} && d in {PdfClause, PdfIoClause} then 10
             else 7;
    assert m[i] == Heading(c)[i] && n[i] == Heading(d)[i];
  }

  // ---------------------------------------------------------------------------
  // The page loop
  // ---------------------------------------------------------------------------

  /** The report after page `i` of `total`: `i / total`. */
  function PageReport(i: nat, total: nat): ToolProgress {
    ToolProgress(Some(Ratio(i, total)), PageCompressed(i, total))
  }

  /** Page `j + 1` was reported `j`-th: pages are visited from 1, in order, once each. */
  predicate PagesReported(total: nat, progress: seq<ToolProgress>) {
    |progress| <= total && forall j :: 0 <= j < |progress| ==> progress[j] == PageReport(j + 1, total)
  }

  /**
   * The `for` loop over the pages. Page `i` polls the token (poll `i`) and
   * is then reported; the loop ends after page `total` or at the first poll
   * that sees cancellation requested.
   */
  method VisitPages(total: nat, token: CancellationToken) returns (cancelled: bool, progress: seq<ToolProgress>)
    requires !token.IsCancellationRequested(0)
    ensures PagesReported(total, progress)
    ensures !token.IsCancellationRequested(|progress|)
    ensures cancelled <==> |progress| < total
    ensures cancelled ==> token.IsCancellationRequested(|progress| + 1)
  {
    progress := [];
    var i := 1;
    while i <= total
      invariant 1 <= i <= total + 1 && |progress| == i - 1
      invariant PagesReported(total, progress) && !token.IsCancellationRequested(i - 1)
    {
      if token.IsCancellationRequested(i) {
        return true, progress;
      }
      progress := progress + [PageReport(i, total)];
      i := i + 1;
    }
    cancelled := false;
  }

  /** The reports count the pages, one more each time, and end at 100% once every page is visited. */
  lemma PageProgress(total: nat, progress: seq<ToolProgress>)
    requires PagesReported(total, progress)
    ensures MonotoneOver(progress, total)
    ensures forall i, j :: 0 <= i < j < |progress| ==>
      progress[i].percentage.value.done < progress[j].percentage.value.done
    ensures |progress| == total > 0 ==> EndsComplete(progress)
  {
  }

  // ---------------------------------------------------------------------------
  // RunAsync
  // ---------------------------------------------------------------------------

  /** The run got past validation: input named and existing, output named. */
  predicate Accepted(context: ToolContext, fs: FileSystem) {
    !IsNullOrWhiteSpace(context.inputFilePath) && context.inputFilePath.value in fs.files
    && !IsNullOrWhiteSpace(context.outputFilePath)
  }

  /**
   * The `try` block of `RunAsync` and its handlers, for an existing input
   * of `entry`. Poll 0 is the start of `Task.Run`; then the reader opens the
   * input, the writer creates the output with the level's settings, and the
   * document is read; then come the pages. Leaving `Task.Run` once the
   * document is open disposes it, which writes it out. A cancellation then
   * deletes the output if it exists (a failed deletion is swallowed); a
   * fault leaves it. `compressedSize` is the length of the written output, which
   * the codec decides: when it is not below the input's length the run notes
   * it and still succeeds.
   */
  ghost predicate CompressPhase(entry: FileEntry, fs: FileSystem, output: string, level: CompressionLevel,
                                compressedSize: nat, token: CancellationToken,
                                outcome: Outcome, events: seq<Event>, progress: seq<ToolProgress>)
  {
    var writer := [OpenedWriter(output, SettingsFor(level))];
    if token.IsCancellationRequested(0) then
      outcome == Cancelled && progress == [] && events == DeleteIfExists(fs, [], output)
    else if entry.openFault.Some? then
      outcome == Completed(Failure(FailureMessage(entry.openFault.value))) && events == [] && progress == []
    else if output in fs.writeFaults then
      outcome == Completed(Failure(FailureMessage(fs.writeFaults[output]))) && events == [] && progress == []
    else if entry.document.Err? then
      outcome == Completed(Failure(FailureMessage(entry.document.error))) && events == writer && progress == []
    else
      var total := |entry.document.value|;
      var written := writer + [WroteDocument(output, entry.document.value)];
      PagesReported(total, progress) && !token.IsCancellationRequested(|progress|)
      && if |progress| < total then
           token.IsCancellationRequested(|progress| + 1)
           && outcome == Cancelled && events == DeleteIfExists(fs, written, output)
         else
           outcome == Completed(Success(output))
           && events == (if compressedSize >= entry.length then written + [NotSmallerNote(entry.length, compressedSize)]
                         else written)
  }

  /** `RunAsync`: validation in order (input named, input exists, output named), the level, then the rewrite. */
  method Run(context: ToolContext, fs: FileSystem, compressedSize: nat) returns (run: ToolRun)
    ensures IsNullOrWhiteSpace(context.inputFilePath) ==> run == Rejected(MissingInputMessage)
    ensures !IsNullOrWhiteSpace(context.inputFilePath) && context.inputFilePath.value !in fs.files ==>
      run == Rejected(NotFoundMessage)
    ensures (!IsNullOrWhiteSpace(context.inputFilePath) && context.inputFilePath.value in fs.files
             && IsNullOrWhiteSpace(context.outputFilePath)) ==> run == Rejected(MissingOutputMessage)
    ensures Accepted(context, fs) ==>
      CompressPhase(fs.files[context.inputFilePath.value], fs, context.outputFilePath.value,
                    LevelOf(context.parameters), compressedSize, context.cancellationToken,
                    run.outcome, run.events, run.progress)
  {
    if IsNullOrWhiteSpace(context.inputFilePath) {
      return Rejected(MissingInputMessage);
    }
    var input := context.inputFilePath.value;
    if input !in fs.files {
      return Rejected(NotFoundMessage);
    }
    if IsNullOrWhiteSpace(context.outputFilePath) {
      return Rejected(MissingOutputMessage);
    }
    var output := context.outputFilePath.value;
    var level := LevelOf(context.parameters);
    var entry := fs.files[input];
    var originalSize := entry.length;
    var token := context.cancellationToken;
    if token.IsCancellationRequested(0) {
      return ToolRun(Cancelled, DeleteIfExists(fs, [], output), []);
    }
    if entry.openFault.Some? {
      return Rejected(FailureMessage(entry.openFault.value));
    }
    if output in fs.writeFaults {
      return Rejected(FailureMessage(fs.writeFaults[output]));
    }
    var writer := [OpenedWriter(output, SettingsFor(level))];
    if entry.document.Err? {
      return ToolRun(Completed(Failure(FailureMessage(entry.document.error))), writer, []);
    }
    var pages := entry.document.value;
    var cancelled, progress := VisitPages(|pages|, token);
    var events := writer + [WroteDocument(output, pages)];
    if cancelled {
      return ToolRun(Cancelled, DeleteIfExists(fs, events, output), progress);
    }
    if compressedSize >= originalSize {
      events := events + [NotSmallerNote(originalSize, compressedSize)];
    }
    run := ToolRun(Completed(Success(output)), events, progress);
  }

  // ---------------------------------------------------------------------------
  // Properties of a run
  // ---------------------------------------------------------------------------

  /** A run that visits every page succeeds with the output path, whether or not the output came out smaller. */
  lemma NotSmallerStillSucceeds(entry: FileEntry, fs: FileSystem, output: string, level: CompressionLevel,
                                compressedSize: nat, token: CancellationToken,
                                outcome: Outcome, events: seq<Event>, progress: seq<ToolProgress>)
    requires CompressPhase(entry, fs, output, level, compressedSize, token, outcome, events, progress)
    requires outcome.Completed? && outcome.result.Success?
    ensures outcome.result.output == output
    ensures entry.document.Ok? && |progress| == |entry.document.value|
    ensures events[1] == WroteDocument(output, entry.document.value)
    ensures (compressedSize >= entry.length) <==> |events| == 3
    ensures compressedSize >= entry.length ==> events[2] == NotSmallerNote(entry.length, compressedSize)
  {
  }

  /**
   * A cancelled run leaves no output file behind, whether or not it existed
   * before, unless its deletion fails; then the file stays if it existed
   * when the clean-up ran: always once the pages were reached.
   */
  lemma CancelledLeavesNoOutput(entry: FileEntry, fs: FileSystem, output: string, level: CompressionLevel,
                                compressedSize: nat, token: CancellationToken,
                                outcome: Outcome, events: seq<Event>, progress: seq<ToolProgress>)
    requires CompressPhase(entry, fs, output, level, compressedSize, token, outcome, events, progress)
    requires outcome == Cancelled
    ensures output !in fs.deleteFaults ==> !ExistsAfter(fs, events, output)
    ensures output in fs.deleteFaults && !token.IsCancellationRequested(0) ==> ExistsAfter(fs, events, output)
    ensures token.IsCancellationRequested(0) ==>
      (ExistsAfter(fs, events, output) <==> output in fs.files && output in fs.deleteFaults)
  {
  }

  /** The output is opened with the codec value of the requested level and full compression. */
  lemma WriterSettingsOfRun(entry: FileEntry, fs: FileSystem, output: string, level: CompressionLevel,
                            compressedSize: nat, token: CancellationToken,
                            outcome: Outcome, events: seq<Event>, progress: seq<ToolProgress>)
    requires CompressPhase(entry, fs, output, level, compressedSize, token, outcome, events, progress)
    requires events != [] && events[0].OpenedWriter?
    ensures events[0].settings.CompressionSettings? && events[0].settings.fullCompression
    ensures events[0].settings.compressionLevel in {3, 6, 9}
  {
    LevelValueRange(level);
  }
}
