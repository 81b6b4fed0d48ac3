/**
 * `HashTool` ("hash.sha256"): the SHA-256 digest of a file, read as a stream
 * in chunks and rendered as upper-case Base16 (section 8 of RFC 4648).
 *
 * SHA-256 itself (FIPS 180-4) is a parameter: a function from the whole byte
 * sequence to its 32-byte digest. The model proves that what the loop feeds
 * to the digest is exactly the file content, so the result does not depend on
 * how the stream splits it into chunks.
 */
module HashTool {
  import opened Values
  import opened Text
  import opened ToolCore

  const ToolId: string := "hash.sha256"
  const BufferSize: nat := 81920

  const MissingPathMessage: string := "Percorso file non specificato."
  const NotFoundMessage: string := "Il file specificato non esiste."
  const AccessDeniedMessage: string := "Accesso al file negato."

  /** A SHA-256 digest: 32 bytes. */
  type Sha256Digest = d: seq<byte> | |d| == 32 witness [0, 0, 0, 0, 0, 0, 0, 0, 0, 0, 0, 0, 0, 0, 0, 0, 0, 0, 0, 0, 0, 0, 0, 0, 0, 0, 0, 0, 0, 0, 0, 0]

  // ---------------------------------------------------------------------------
  // The stream and the digest accumulator
  // ---------------------------------------------------------------------------

  /** A `FileStream` opened for sequential reading of `content`. */
  class FileReadStream {
    const content: seq<byte>
    var position: nat

    ghost predicate Valid()
      reads this
    {
      position <= |content|
    }

    constructor(content: seq<byte>)
      ensures Valid() && this.content == content && position == 0
    {
      this.content := content;
      position := 0;
    }

    /**
     * `ReadAsync(buffer)`: copies the next bytes into the front of `buffer`
     * and returns how many. A read may return fewer bytes than asked for, but
     * returns 0 only at the end of the stream.
     */
    method Read(buffer: array<byte>) returns (n: nat)
      requires Valid() && buffer.Length > 0
      modifies this, buffer
      ensures Valid()
      ensures n <= buffer.Length && position == old(position) + n
      ensures n == 0 <==> old(position) == |content|
      ensures buffer[..n] == content[old(position)..position]
    {
      if position == |content| {
        return 0;
      }
      n :| 1 <= n <= buffer.Length && position + n <= |content|;
      var i := 0;
      while i < n
        modifies buffer
        invariant 0 <= i <= n
        invariant buffer[..i] == content[position..position + i]
      {
        buffer[i] := content[position + i];
        assert buffer[..i + 1] == buffer[..i] + [buffer[i]];
        i := i + 1;
      }
      position := position + n;
    }
  }

  /** The incremental SHA-256 object: `TransformBlock` feeds bytes, `TransformFinalBlock` and `Hash` finish. */
  class Sha256Accumulator {
    /** Every byte fed so far, in order. */
    var fed: seq<byte>

    constructor()
      ensures fed == []
    {
      fed := [];
    }

    /** `TransformBlock(buffer, 0, count, null, 0)`. */
    method TransformBlock(buffer: array<byte>, count: nat)
      requires count <= buffer.Length
      modifies this
      ensures fed == old(fed) + buffer[..count]
    {
      fed := fed + buffer[..count];
    }

    /** `TransformFinalBlock` with no more bytes, then `Hash`: the digest of everything fed. */
    function Hash(sha256: seq<byte> -> Sha256Digest): Sha256Digest
      reads this
    {
      sha256(fed)
    }
  }

  // ---------------------------------------------------------------------------
  // Progress
  // ---------------------------------------------------------------------------

  /** The report after a chunk: a percentage of `totalLength` when that is positive, none otherwise. */
  function Report(processed: nat, totalLength: nat): (p: ToolProgress)
    ensures p.message == BytesRead(processed, if totalLength > 0 then Some(totalLength) else None)
    ensures p.percentage.Some? <==> totalLength > 0
    ensures p.percentage.Some? ==> p.percentage.value == Ratio(processed, totalLength)
  {
    if totalLength > 0 then ToolProgress(Some(Ratio(processed, totalLength)), BytesRead(processed, Some(totalLength)))
    else ToolProgress(None, BytesRead(processed, None))
  }

  /**
   * One report per chunk read: each is the report of its running total, and
   * each total exceeds the previous one (0 before the first) by 1 to
   * `BufferSize` bytes.
   */
  predicate ChunkReports(progress: seq<ToolProgress>, totalLength: nat) {
    (forall i :: 0 <= i < |progress| ==>
      progress[i].message.BytesRead? && progress[i] == Report(progress[i].message.processed, totalLength))
    && (|progress| > 0 ==> 1 <= progress[0].message.processed <= BufferSize)
    && (forall i :: 0 < i < |progress| ==>
      1 <= progress[i].message.processed - progress[i - 1].message.processed <= BufferSize)
  }

  /** The running total of the last report, 0 when none was made. */
  function ReadSoFar(progress: seq<ToolProgress>, totalLength: nat): nat
    requires ChunkReports(progress, totalLength)
  {
    if progress == [] then 0 else progress[|progress| - 1].message.processed
  }

  /** The reports are those of the chunks read so far, and they account for `processed` bytes. */
  predicate Reported(progress: seq<ToolProgress>, totalLength: nat, processed: nat) {
    ChunkReports(progress, totalLength) && ReadSoFar(progress, totalLength) == processed
  }

  /** One more chunk of 1 to `BufferSize` bytes extends the reports by the report of the new total. */
  lemma ChunkReportsStep(progress: seq<ToolProgress>, totalLength: nat, processed: nat, n: nat)
    requires Reported(progress, totalLength, processed) && 1 <= n <= BufferSize
    ensures Reported(progress + [Report(processed + n, totalLength)], totalLength, processed + n)
  {
    var longer := progress + [Report(processed + n, totalLength)];
    forall i | 0 <= i < |longer|
      ensures longer[i].message.BytesRead? && longer[i] == Report(longer[i].message.processed, totalLength)
    {
      if i < |progress| { assert longer[i] == progress[i]; }
    }
    forall i | 0 < i < |longer|
      ensures 1 <= longer[i].message.processed - longer[i - 1].message.processed <= BufferSize
    {
      if i < |progress| { assert longer[i] == progress[i] && longer[i - 1] == progress[i - 1]; }
    }
  }

  /** The running totals strictly increase, and none exceeds the last. */
  lemma {:induction false} ProcessedIncreases(progress: seq<ToolProgress>, totalLength: nat, i: nat, j: nat)
    requires ChunkReports(progress, totalLength) && i < j < |progress|
    ensures progress[i].message.processed < progress[j].message.processed
    decreases j - i
  {
    if i + 1 < j {
      ProcessedIncreases(progress, totalLength, i, j - 1);
    }
  }

  /** With a positive length every report is determinate over it, and the percentages never go back. */
  lemma ProgressMonotone(progress: seq<ToolProgress>, totalLength: nat)
    requires ChunkReports(progress, totalLength) && totalLength > 0
    ensures MonotoneOver(progress, totalLength)
  {
    forall i, j | 0 <= i < j < |progress|
      ensures progress[i].percentage.value.done <= progress[j].percentage.value.done
    {
      ProcessedIncreases(progress, totalLength, i, j);
    }
  }

  /** When the whole of a non-empty file of the announced length was read, the last report reads 100%. */
  lemma ProgressCompletes(progress: seq<ToolProgress>, totalLength: nat)
    requires ChunkReports(progress, totalLength) && totalLength > 0
    requires ReadSoFar(progress, totalLength) == totalLength
    ensures EndsComplete(progress)
  {
  }

  /** With a zero length every report is indeterminate. */
  lemma ProgressIndeterminate(progress: seq<ToolProgress>)
    requires ChunkReports(progress, 0)
    ensures forall i :: 0 <= i < |progress| ==> progress[i].percentage.None?
  {
  }

  /** Reading `n` bytes takes at least `n / BufferSize` chunks, and at most `n` chunks. */
  lemma {:induction false} ChunkCountBounds(progress: seq<ToolProgress>, totalLength: nat)
    requires ChunkReports(progress, totalLength)
    ensures |progress| <= ReadSoFar(progress, totalLength) <= |progress| * BufferSize
  {
    if |progress| > 1 {
      var shorter := progress[..|progress| - 1];
      assert ChunkReports(shorter, totalLength);
      ChunkCountBounds(shorter, totalLength);
    }
  }

  // ---------------------------------------------------------------------------
  // Failures
  // ---------------------------------------------------------------------------

  /** Which `catch` clause of `RunAsync` a fault reaches. */
  datatype CatchClause = AccessDeniedClause | IoClause | CryptographicClause | GeneralClause

  function ClauseOf(kind: FaultKind): CatchClause {
    match kind
    case AccessDenied => AccessDeniedClause
    case Io => IoClause
    case Cryptographic => CryptographicClause
    // iText's exceptions do not derive from System.IO.IOException
    case PdfIo => GeneralClause
    case Pdf => GeneralClause
    case Unexpected => GeneralClause
  }

  /**
   * The failure message of a caught fault: a fixed text when access is
   * denied, otherwise a heading naming the clause, then the fault's own text.
   */
  function FailureMessage(f: Fault): (m: string)
    ensures ClauseOf(f.kind) == AccessDeniedClause ==> m == AccessDeniedMessage
    ensures ClauseOf(f.kind) != AccessDeniedClause ==> |f.message| < |m| && m[|m| - |f.message|..] == f.message
  {
    match ClauseOf(f.kind)
    case AccessDeniedClause => AccessDeniedMessage
    case IoClause => "Errore di I/O: " + f.message
    case CryptographicClause => "Errore crittografico: " + f.message
    case GeneralClause => "Errore inatteso: " + f.message
  }

  /** Faults caught by different clauses give different messages, whatever their own messages say. */
  lemma FailureMessagesDistinct(f: Fault, g: Fault)
    requires ClauseOf(f.kind) != ClauseOf(g.kind)
    ensures FailureMessage(f) != FailureMessage(g)
  {
    var m, n := FailureMessage(f), FailureMessage(g);
    if ClauseOf(f.kind) == AccessDeniedClause || ClauseOf(g.kind) == AccessDeniedClause {
      assert m[0] != n[0];
    } else {
      assert m[7] != n[7];
    }
  }

  /** No caught fault yields one of the two validation messages. */
  lemma FailureMessagesAreNotValidation(f: Fault)
    ensures FailureMessage(f) != MissingPathMessage && FailureMessage(f) != NotFoundMessage
  {
    var m := FailureMessage(f);
    assert m[0] != MissingPathMessage[0] && m[0] != NotFoundMessage[0];
  }

  // ---------------------------------------------------------------------------
  // RunAsync
  // ---------------------------------------------------------------------------

  /** The run got past validation: the path is given and names an existing file. */
  predicate PathAccepted(context: ToolContext, fs: FileSystem) {
    !IsNullOrWhiteSpace(context.inputFilePath) && context.inputFilePath.value in fs.files
  }

  /**
   * `RunAsync`. Poll `i` of the cancellation token is the `i`-th call of
   * `ReadAsync`, counting from 0; the call that finds the end of the file is
   * poll number (chunks read).
   */
  method Run(context: ToolContext, fs: FileSystem, sha256: seq<byte> -> Sha256Digest) returns (run: ToolRun)
    ensures IsNullOrWhiteSpace(context.inputFilePath) ==> run == Rejected(MissingPathMessage)
    ensures !IsNullOrWhiteSpace(context.inputFilePath) && context.inputFilePath.value !in fs.files ==>
      run == Rejected(NotFoundMessage)
    ensures PathAccepted(context, fs) && fs.files[context.inputFilePath.value].openFault.Some? ==>
      run == Rejected(FailureMessage(fs.files[context.inputFilePath.value].openFault.value))
    ensures PathAccepted(context, fs) && fs.files[context.inputFilePath.value].openFault.None? ==>
      var entry := fs.files[context.inputFilePath.value];
      var token := context.cancellationToken;
      run.events == []
      && ChunkReports(run.progress, entry.length)
      && (run.outcome.Cancelled? <==> token.IsCancellationRequested(|run.progress|))
      && (run.outcome.Cancelled? ==> token.cancelledAtPoll == Some(|run.progress|))
      && (run.outcome.Completed? ==>
            run.outcome.result == Success(ToHex(sha256(entry.bytes)))
            && ReadSoFar(run.progress, entry.length) == |entry.bytes|)
  {
    if IsNullOrWhiteSpace(context.inputFilePath) {
      return Rejected(MissingPathMessage);
    }
    var path := context.inputFilePath.value;
    if path !in fs.files {
      return Rejected(NotFoundMessage);
    }
    var entry := fs.files[path];
    var totalLength := entry.length;
    if entry.openFault.Some? {
      return Rejected(FailureMessage(entry.openFault.value));
    }
    var outcome, progress := HashContent(entry, context.cancellationToken, sha256);
    run := ToolRun(outcome, [], progress);
  }

  /**
   * One turn of the read loop: `ReadAsync` into the buffer and, unless the end
   * of the file was reached, `TransformBlock` of the bytes read and a report
   * of the new running total.
   */
  method ReadStep(stream: FileReadStream, digest: Sha256Accumulator, buffer: array<byte>,
                  totalLength: nat, progress: seq<ToolProgress>)
    returns (n: nat, progress': seq<ToolProgress>)
    requires stream.Valid() && buffer.Length == BufferSize
    requires digest.fed == stream.content[..stream.position]
    requires Reported(progress, totalLength, stream.position)
    modifies stream, digest, buffer
    ensures stream.Valid() && stream.position == old(stream.position) + n
    ensures n == 0 <==> old(stream.position) == |stream.content|
    ensures digest.fed == stream.content[..stream.position]
    ensures Reported(progress', totalLength, stream.position)
    ensures progress' == if n == 0 then progress else progress + [Report(stream.position, totalLength)]
  {
    var before := stream.position;
    n := stream.Read(buffer);
    if n == 0 {
      return n, progress;
    }
    digest.TransformBlock(buffer, n);
    assert stream.content[..stream.position]
      == stream.content[..before] + stream.content[before..stream.position];
    ChunkReportsStep(progress, totalLength, before, n);
    progress' := progress + [Report(stream.position, totalLength)];
  }

  /** The read loop of `RunAsync`: chunk by chunk into the hash, one report per chunk. */
  method HashContent(entry: FileEntry, token: CancellationToken, sha256: seq<byte> -> Sha256Digest)
    returns (outcome: Outcome, progress: seq<ToolProgress>)
    ensures ChunkReports(progress, entry.length)
    ensures outcome.Cancelled? <==> token.IsCancellationRequested(|progress|)
    ensures outcome.Cancelled? ==> token.cancelledAtPoll == Some(|progress|)
    ensures outcome.Completed? ==>
      outcome.result == Success(ToHex(sha256(entry.bytes))) && ReadSoFar(progress, entry.length) == |entry.bytes|
  {
    var stream := new FileReadStream(entry.bytes);
    var digest := new Sha256Accumulator();
    var buffer := new byte[BufferSize];
    progress := [];
    while true
      invariant stream.Valid() && digest.fed == stream.content[..stream.position]
      invariant Reported(progress, entry.length, stream.position)
      invariant |progress| > 0 ==> !token.IsCancellationRequested(|progress| - 1)
      decreases |entry.bytes| - stream.position
    {
      if token.IsCancellationRequested(|progress|) {
        return Cancelled, progress;
      }
      var n;
      n, progress := ReadStep(stream, digest, buffer, entry.length, progress);
      if n == 0 {
        break;
      }
    }
    assert digest.fed == entry.bytes;
    var hash := ToHex(digest.Hash(sha256));
    outcome := Completed(Success(hash));
  }

  /** A successful output is 64 upper-case hexadecimal characters that decode back to the digest. */
  lemma SuccessOutputShape(sha256: seq<byte> -> Sha256Digest, content: seq<byte>)
    ensures var output := ToHex(sha256(content));
      |output| == 64
      && (forall i :: 0 <= i < |output| ==> IsHexChar(output[i]))
      && FromHex(output) == sha256(content)
  {
    FromHexToHex(sha256(content));
  }
}
