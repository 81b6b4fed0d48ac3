# SwissKnife tool execution core, modelled in Dafny

SwissKnife is a desktop toolbox whose tools implement one contract: `RunAsync(ToolContext)` returns a `ToolResult`
that is either `Success(output)` or `Failure(error)`. While a tool runs it reports `ToolProgress` and polls a
cancellation token. A `ToolRegistry` finds tools by identifier, ignoring letter case. This project models the
registry, the result type and four tools:

- `hash.sha256` streams a file through SHA-256 and returns the digest in upper-case hexadecimal (`HashTool`).
- `pdf.split` writes one PDF per window of pages, or one per page range (`PdfSplitTool`).
- `pdf.merge` appends several PDFs, in list order, into one (`PdfMergeTool`).
- `pdf.compress` rewrites a PDF with a compression level chosen by name (`PdfCompressTool`).

The model has these parts:

- **State.** A run sees the file system as an immutable snapshot (`ToolCore.FileSystem`).
  - Each file carries its reported length, its bytes, the fault raised on opening it, and what the PDF codec
    makes of it: a page sequence or a fault.
  - Paths whose creation fails are listed with their fault, and so are paths whose deletion fails.
- **Trace.** A run returns a `ToolRun`: how it ended (a result, or cancellation propagated), the ordered trace
  of what it did outside itself (directories created, writers opened, documents written, files deleted,
  ranges skipped, the "not smaller" note), and the progress reports in order.
- **Cancellation.** The token says at which of the tool's numbered polls cancellation is first seen. For the
  PDF tools the start of `Task.Run` is poll 0. Each loop iteration polls once more.
- **Progress.** A percentage is modelled by its integer surrogate: a numerator and a denominator.
- **Objects.** The source's own mutable objects are Dafny classes with fields:
  - the registry dictionary (`Registry.ToolRegistry`);
  - the read stream and the digest accumulator of the hash loop;
  - the `PdfMerger` the merge appends into.
  
  Loops that advance step by step are methods with invariants, proved against specification functions.
- **Modules.** `Values`, `Text`, `Paths` and `ToolCore` hold the .NET primitives the tools rely on:
  - `Trim`, `Split` with `RemoveEmptyEntries`, `Int32.TryParse`, the `D<n>` format, `Convert.ToHexString`;
  - `Path.GetFileName`, `GetFileNameWithoutExtension` and `Combine`;
  - the shared contract types.

## Model

| member | source | states |
|---|---|---|
| `ToolCore.ToolResult.Output` | src/SwissKnife/Core/ToolResult.cs:15-24 | `Output` is set exactly for a success, and then holds the success payload |
| `ToolCore.ToolResult.Error` | src/SwissKnife/Core/ToolResult.cs:15-24 | `Error` is set exactly for a failure, and then holds the failure message |
| `ToolCore.ExactlyOneFieldSet` | src/SwissKnife/Core/ToolResult.cs:8-24 | for any result built by the two factories, exactly one of `Output` and `Error` is set, and `IsSuccess` says which |
| `ToolCore.StringParameter` | src/SwissKnife/Tools/PdfSplitTool.cs:50-52 | `Parameters?.GetValueOrDefault(key) as string`: present exactly when the dictionary exists and holds a string under the key, and then it is that string |
| `ToolCore.DeleteIfExists` | src/SwissKnife/Tools/PdfMergeTool.cs:97-103 | after the clean-up the path exists exactly when it existed before and its deletion fails, a failure that is swallowed; the trace only gains a deletion, and only when the file existed and could be deleted |
| `ToolCore.ConcatAppend` | src/SwissKnife/Tools/PdfMergeTool.cs:71-80 | concatenating two lists of documents is the concatenation of their concatenations |
| `ToolCore.ConcatSplit` | src/SwissKnife/Tools/PdfMergeTool.cs:71-80 | within a concatenation, each document sits right after the documents before it and right before those after it |
| `ToolCore.OpenDocument` | src/SwissKnife/Tools/PdfMergeTool.cs:78 | no contract of its own: `new PdfDocument(new PdfReader(path))` gives the open fault first, then the codec's result; `PdfMergeTool.FailureKeepsMergedPrefix` and `PdfMergeTool.MergePhase` state what a run does with it |
| `ToolCore.ExistsAfter` | src/SwissKnife/Tools/PdfMergeTool.cs:99 | no contract of its own: `File.Exists` after a trace, where the last event on the path decides; `ToolCore.DeleteIfExists` and both `CancelledLeavesNoOutput` lemmas state what the clean-up leaves |
| `ToolCore.FileExists` | src/SwissKnife/Tools/PdfMergeTool.cs:56 | no contract of its own: `File.Exists` is false for the empty path; `PdfMergeTool.BlankEntryNotFound` and `PdfMergeTool.FirstMissing` rely on it |
| `Text.TrimWith` | src/SwissKnife/Tools/PdfSplitTool.cs:183 | the trim is the slice left after dropping leading and trailing white space; it neither starts nor ends with white space; it is empty exactly when the text is all white space |
| `Text.Trim` | src/SwissKnife/Tools/PdfSplitTool.cs:183 | no contract of its own: `String.Trim` is `TrimWith` over `char.IsWhiteSpace`; `Text.TrimUntouched`, `Text.TrimAround`, `Text.TrimStartHead` and `Text.TrimAddsNothing` carry its properties |
| `Text.LeadingWhitePrefix` | src/SwissKnife/Tools/PdfCompressTool.cs:59 | the leading white space skipped is exactly the white prefix in front of non-white text |
| `Text.TrailingWhiteSuffix` | src/SwissKnife/Tools/PdfSplitTool.cs:183 | the trailing white space counted is exactly the white suffix after non-white text |
| `Text.TrimAround` | src/SwissKnife/Tools/PdfCompressTool.cs:59 | white space added at both ends of text is exactly what trimming removes |
| `Text.TrimStartHead` | src/SwissKnife/Tools/PdfCompressTool.cs:59 | `TrimStart` leaves nothing exactly when `Trim` does, and otherwise both start with the same character |
| `Text.TrimAddsNothing` | src/SwissKnife/Tools/PdfMergeTool.cs:45 | trimming never introduces a character that was absent |
| `Text.TrimUntouched` | src/SwissKnife/Tools/PdfSplitTool.cs:183 | text with no white space at either end is its own trim |
| `Text.Split` | src/SwissKnife/Tools/PdfSplitTool.cs:179 | `Split` yields at least one piece, and no piece contains the separator |
| `Text.JoinSplit` | src/SwissKnife/Tools/PdfSplitTool.cs:186 | joining the pieces with the separator gives back the original text |
| `Text.SplitNoSeparator` | src/SwissKnife/Tools/PdfSplitTool.cs:179 | text without the separator is a single piece |
| `Text.SplitAppend` | src/SwissKnife/Tools/PdfSplitTool.cs:179 | the pieces of `a + sep + b` are the pieces of `a` followed by those of `b` |
| `Text.SplitCount` | src/SwissKnife/Tools/PdfSplitTool.cs:186-187 | there is exactly one more piece than there are separators |
| `Text.RemoveEmpty` | src/SwissKnife/Tools/PdfSplitTool.cs:179 | `RemoveEmptyEntries` keeps exactly the nonempty pieces and never adds any |
| `Text.RemoveEmptyAppend` | src/SwissKnife/Tools/PdfMergeTool.cs:44 | the filter works piece by piece and keeps their order |
| `Text.NatToDecimal` | src/SwissKnife/Tools/PdfSplitTool.cs:124 | the rendering of a number is a nonempty digit string whose value is that number, with no leading zero |
| `Text.FormatD` | src/SwissKnife/Tools/PdfSplitTool.cs:124 | `{n:D3}` is a digit string of value `n`, padded with zeros to at least the width |
| `Text.TryParseInt32` | src/SwissKnife/Tools/PdfSplitTool.cs:54 | a parsed value fits in 32 bits, is non-negative when the text has no '-', and the text holds a digit; leading ASCII white space is skipped before the integer syntax of `Text.ParseInteger` |
| `Text.TrailingNuls` | src/SwissKnife/Tools/PdfSplitTool.cs:54 | the count is of the '\0' characters that end the text, all of them and no more |
| `Text.ParseInteger` | src/SwissKnife/Tools/PdfSplitTool.cs:54 | a parsed value fits in 32 bits, is non-negative when the text has no '-', and the text holds a digit |
| `Text.IntegerDigits` | src/SwissKnife/Tools/PdfCompressTool.cs:59 | a digit string is read as its value when that fits in 32 bits, and is rejected as an overflow otherwise |
| `Text.IntegerStrayTail` | src/SwissKnife/Tools/PdfCompressTool.cs:59 | digits followed by a character that is not a digit, ASCII white space or '\0' are rejected |
| `Text.IntegerTrailingNul` | src/SwissKnife/Tools/PdfSplitTool.cs:54 | a '\0' after the digits changes nothing |
| `Text.ParseDigits` | src/SwissKnife/Tools/PdfSplitTool.cs:54 | a digit string whose value fits in 32 bits parses as that value |
| `Text.ParseTrailingNul` | src/SwissKnife/Tools/PdfSplitTool.cs:54 | `Int32.TryParse` accepts a trailing '\0': "5\0" is 5 |
| `Text.ParseFormatted` | src/SwissKnife/Tools/PdfSplitTool.cs:54 | parsing the decimal rendering of any 32-bit non-negative value gives it back |
| `Text.ParseRejects` | src/SwissKnife/Tools/PdfSplitTool.cs:54 | the empty string, a blank, a lone sign and a word do not parse |
| `Text.ToHex` | src/SwissKnife/Tools/HashTool.cs:74 | the hexadecimal rendering has two characters per byte, all from 0-9A-F |
| `Text.FromHexToHex` | src/SwissKnife/Tools/HashTool.cs:74 | decoding the rendering gives back the bytes, so no two digests render alike |
| `Paths.GetFileName` | src/SwissKnife/Tools/PdfSplitTool.cs:115 | the file name is the suffix after the last directory separator and holds no separator; it never includes a leading drive designator such as `C:` |
| `Paths.DriveLength` | src/SwissKnife/Tools/PdfSplitTool.cs:115 | a path has a drive root exactly when it starts with an ASCII letter followed by ':', and the root is those two characters |
| `Paths.AfterLastSeparator` | src/SwissKnife/Tools/PdfSplitTool.cs:115 | the part after the last `\` or `/`: a suffix of the text with no separator, preceded by a separator whenever it is shorter than the text |
| `Paths.DriveRelativeName` | src/SwissKnife/Tools/PdfSplitTool.cs:115 | the file name of "C:report.pdf" is "report.pdf" |
| `Paths.LastDot` | src/SwissKnife/Tools/PdfSplitTool.cs:115 | the last '.' of a name, or none when there is no '.' |
| `Paths.GetFileNameWithoutExtension` | src/SwissKnife/Tools/PdfSplitTool.cs:115 | the base name is the file name cut at its last '.', or the whole name when it has none |
| `Paths.IsRooted` | src/SwissKnife/Tools/PdfSplitTool.cs:125 | no contract of its own: `Path.IsPathRooted` on Windows (a leading separator, or an ASCII letter then ':'); `Paths.Combine` and `Paths.RootedTogether` carry its use |
| `Paths.Combine` | src/SwissKnife/Tools/PdfSplitTool.cs:125 | a rooted name (leading separator or drive designator) is returned as is, and so is any name under an empty directory; an empty name gives the directory; otherwise the path starts with the directory and ends with the name, with a directory separator between them |
| `Paths.RootedNameEscapes` | src/SwissKnife/Tools/PdfSplitTool.cs:125 | "a:s.pdf" combined under `C:\out` is "a:s.pdf": the directory is dropped |
| `Paths.RootedTogether` | src/SwissKnife/Tools/PdfSplitTool.cs:124-125 | names that share a prefix and then continue with '_' are rooted exactly together |
| `Paths.CombineInjective` | src/SwissKnife/Tools/PdfSplitTool.cs:125 | under one directory, two names that are both rooted or both not rooted never combine to the same path |
| `Registry.NormalizeIdExact` | src/SwissKnife/Core/ToolRegistry.cs:12 | two identifiers share a dictionary key exactly when they are equal ignoring case |
| `Registry.NormalizeId` | src/SwissKnife/Core/ToolRegistry.cs:12 | the dictionary key keeps the identifier's length; `Registry.NormalizeIdExact` states that keys agree exactly when identifiers are equal ignoring case |
| `Registry.Lookup` | src/SwissKnife/Core/ToolRegistry.cs:23 | a lookup finds a stored tool whose identifier equals the requested one ignoring case; it returns null only when no stored tool matches |
| `Registry.Registered` | src/SwissKnife/Core/ToolRegistry.cs:17 | after registering, the identifier finds the new tool; the lookup of any identifier that is not equal to it ignoring case is unchanged |
| `Registry.LookupIgnoresCase` | src/SwissKnife/Core/ToolRegistry.cs:12-24 | every spelling of an identifier finds the same entry |
| `Registry.LastRegistrationWins` | src/SwissKnife/Core/ToolRegistry.cs:12-18 | two registrations whose identifiers differ only in case leave one entry, holding the later tool |
| `Registry.RegisterGrowsByAtMostOne` | src/SwissKnife/Core/ToolRegistry.cs:17 | registering removes no entry and adds at most one |
| `Registry.ToolRegistry.constructor` | src/SwissKnife/Core/ToolRegistry.cs:12 | a new registry is empty |
| `Registry.ToolRegistry.Register` | src/SwissKnife/Core/ToolRegistry.cs:14-18 | a null tool is refused with the registry unchanged; any other tool inserts or overwrites its entry |
| `Registry.ToolRegistry.GetById` | src/SwissKnife/Core/ToolRegistry.cs:20-24 | a null or empty identifier is refused; any other gives the case-insensitive lookup, null when absent |
| `Registry.ToolRegistry.GetAll` | src/SwissKnife/Core/ToolRegistry.cs:26 | the list holds every stored tool, one per entry, and no two of its identifiers are equal ignoring case |
| `Registry.ListedOnce` | src/SwissKnife/Core/ToolRegistry.cs:26 | a list made of every key's entry once holds exactly the stored tools, with no two identifiers equal ignoring case |
| `HashTool.FileReadStream.Read` | src/SwissKnife/Tools/HashTool.cs:57 | a read fills at most the buffer, returns 0 exactly at the end of the file, and returns the next bytes of the file in order |
| `HashTool.Sha256Accumulator.TransformBlock` | src/SwissKnife/Tools/HashTool.cs:59 | the accumulator's input grows by exactly the chunk fed |
| `HashTool.Report` | src/SwissKnife/Tools/HashTool.cs:62-70 | the report is determinate `processed / totalLength` when the length is nonzero, and indeterminate otherwise |
| `HashTool.ChunkReportsStep` | src/SwissKnife/Tools/HashTool.cs:57-70 | one more chunk of at most 81920 bytes extends the reports by the new running total |
| `HashTool.ProcessedIncreases` | src/SwissKnife/Tools/HashTool.cs:60 | the running total strictly increases from report to report |
| `HashTool.ProgressMonotone` | src/SwissKnife/Tools/HashTool.cs:62-66 | for a file with known length, every report is determinate over that length, and the reports never go back |
| `HashTool.ProgressCompletes` | src/SwissKnife/Tools/HashTool.cs:62-66 | once every byte is read, the last report of a nonempty file reads 100% |
| `HashTool.ProgressIndeterminate` | src/SwissKnife/Tools/HashTool.cs:67-70 | when the reported length is 0, every report is indeterminate |
| `HashTool.ChunkCountBounds` | src/SwissKnife/Tools/HashTool.cs:55-57 | reading n bytes takes at least n/81920 reads and at most n |
| `HashTool.FailureMessage` | src/SwissKnife/Tools/HashTool.cs:84-99 | access denied gets a fixed message; every other fault's message ends with the fault's own text, after a heading |
| `HashTool.FailureMessagesDistinct` | src/SwissKnife/Tools/HashTool.cs:84-99 | faults taken by different clauses give different messages |
| `HashTool.FailureMessagesAreNotValidation` | src/SwissKnife/Tools/HashTool.cs:25-99 | no caught fault gives one of the two validation messages |
| `HashTool.ReadStep` | src/SwissKnife/Tools/HashTool.cs:57-70 | one loop turn feeds the chunk read to the digest and reports the new total, keeping the loop invariant |
| `HashTool.HashContent` | src/SwissKnife/Tools/HashTool.cs:41-78 | the bytes fed to the digest are the file content in order, so the result is the hex of SHA-256 of the content, whatever the chunk sizes; a cancellation is the outcome exactly when a poll sees it |
| `HashTool.Run` | src/SwissKnife/Tools/HashTool.cs:23-99 | a blank path, then a missing file, fail before any read; an open fault fails with its clause's message; otherwise the run hashes the whole content or propagates cancellation, never turning it into a failure |
| `HashTool.SuccessOutputShape` | src/SwissKnife/Tools/HashTool.cs:73-77 | a successful output is 64 characters of upper-case hexadecimal |
| `PdfSplitTool.ParseRanges` | src/SwissKnife/Tools/PdfSplitTool.cs:176-201 | the list the loop builds is the in-order list of the tokens' ranges |
| `PdfSplitTool.ParseToken` | src/SwissKnife/Tools/PdfSplitTool.cs:183-197 | no contract of its own: the range of one token, or none; `HyphenatedTokenHasTwoSides`, `HyphenatedTokenParsed`, `DecimalRangeParsed`, `DecimalPageParsed`, `LeadingHyphenRejected`, `WordRejected`, `ManyHyphensRejected` and `RangeValuesNonNegative` (all in `PdfSplitTool`) carry its properties |
| `PdfSplitTool.RangeList` | src/SwissKnife/Tools/PdfSplitTool.cs:176-201 | no contract of its own: the ranges of the comma-separated tokens, in order; `PdfSplitTool.ParseRanges`, `RangeListAppend`, `RangeListLength`, `RangeListEmpty` and `RangeListExample` carry its properties |
| `PdfSplitTool.ForEachToken` | src/SwissKnife/Tools/PdfSplitTool.cs:181-198 | the `foreach` over the tokens adds each token's range, in order |
| `PdfSplitTool.ReadToken` | src/SwissKnife/Tools/PdfSplitTool.cs:181-198 | one turn of the loop appends what the current token contributes |
| `PdfSplitTool.TokenOf` | src/SwissKnife/Tools/PdfSplitTool.cs:183-197 | a token contributes at most one range |
| `PdfSplitTool.RangeListLength` | src/SwissKnife/Tools/PdfSplitTool.cs:179 | there are at most as many ranges as comma-separated entries |
| `PdfSplitTool.RangeListAppend` | src/SwissKnife/Tools/PdfSplitTool.cs:179-198 | the ranges of "a,b" are those of a followed by those of b |
| `PdfSplitTool.RangeListEmpty` | src/SwissKnife/Tools/PdfSplitTool.cs:179 | an empty string gives no range |
| `PdfSplitTool.ManyHyphensRejected` | src/SwissKnife/Tools/PdfSplitTool.cs:186-187 | a token with two or more '-' gives no range |
| `PdfSplitTool.HyphenatedTokenHasTwoSides` | src/SwissKnife/Tools/PdfSplitTool.cs:184-192 | a token with a '-' that gives a range has exactly one '-', and the range is its two parsed sides |
| `PdfSplitTool.HyphenatedTokenParsed` | src/SwissKnife/Tools/PdfSplitTool.cs:184-192 | conversely, a token with exactly one '-' gives a range exactly when both trimmed sides parse as integers, and the range is those two values (so "1 - 3", "03-5" and "+2-4" are ranges) |
| `PdfSplitTool.DecimalRangeParsed` | src/SwissKnife/Tools/PdfSplitTool.cs:184-192 | "a-b" gives `(a, b)`, even when a > b |
| `PdfSplitTool.DecimalPageParsed` | src/SwissKnife/Tools/PdfSplitTool.cs:194-197 | "p" gives `(p, p)` |
| `PdfSplitTool.RangeValuesNonNegative` | src/SwissKnife/Tools/PdfSplitTool.cs:184-197 | no parsed range has a negative side, since a '-' always reads as a separator |
| `PdfSplitTool.DecimalRangeFirst` | src/SwissKnife/Tools/PdfSplitTool.cs:179-192 | a leading "a-b," contributes `(a, b)` ahead of the rest |
| `PdfSplitTool.DecimalPageFirst` | src/SwissKnife/Tools/PdfSplitTool.cs:179-197 | a leading "p," contributes `(p, p)` ahead of the rest |
| `PdfSplitTool.RangeListExample` | src/SwissKnife/Tools/PdfSplitTool.cs:176-201 | "1-3,5-7,10" gives `[(1,3), (5,7), (10,10)]` |
| `PdfSplitTool.LeadingHyphenRejected` | src/SwissKnife/Tools/PdfSplitTool.cs:184-192 | a token that starts with '-', such as "-5", gives no range |
| `PdfSplitTool.WordRejected` | src/SwissKnife/Tools/PdfSplitTool.cs:194 | a token without '-' and without digits, such as "abc", gives no range |
| `PdfSplitTool.SingleToken` | src/SwissKnife/Tools/PdfSplitTool.cs:179-198 | a string without commas is one token |
| `PdfSplitTool.PagesPerFile` | src/SwissKnife/Tools/PdfSplitTool.cs:51-57 | `pagesPerFile` is the parsed value when it is at least 1, and 1 when it is missing, unparsable or below 1 |
| `PdfSplitTool.PagesPerFileOfDecimal` | src/SwissKnife/Tools/PdfSplitTool.cs:54-57 | any positive 32-bit value written in decimal is taken as is |
| `PdfSplitTool.WindowCount` | src/SwissKnife/Tools/PdfSplitTool.cs:117 | no contract of its own: the number of turns of the `for` loop; `WindowCountExact` and `WindowCountIsCeiling` carry its properties |
| `PdfSplitTool.WindowStart` | src/SwissKnife/Tools/PdfSplitTool.cs:117 | no contract of its own: `startPage` of turn i; `WindowsConsecutive`, `WindowsSpanDocument` and `WindowBounds` carry its properties |
| `PdfSplitTool.WindowEnd` | src/SwissKnife/Tools/PdfSplitTool.cs:121 | no contract of its own: `Math.Min(startPage + pagesPerFile - 1, totalPages)`; `WindowBounds`, `WindowsDisjoint` and `WindowsCover` carry its properties |
| `PdfSplitTool.WindowCountExact` | src/SwissKnife/Tools/PdfSplitTool.cs:117 | window i exists exactly when its first page is within the document |
| `PdfSplitTool.WindowBounds` | src/SwissKnife/Tools/PdfSplitTool.cs:117-121 | each window lies within `[1, total]` and spans at most `pagesPerFile` pages |
| `PdfSplitTool.WindowsConsecutive` | src/SwissKnife/Tools/PdfSplitTool.cs:117-121 | each window starts right after the previous one ends |
| `PdfSplitTool.WindowsSpanDocument` | src/SwissKnife/Tools/PdfSplitTool.cs:117-121 | there is no window exactly when the document is empty; otherwise the first starts at 1 and the last ends at `total` |
| `PdfSplitTool.WindowCountIsCeiling` | src/SwissKnife/Tools/PdfSplitTool.cs:117 | there are ceil(total / pagesPerFile) windows |
| `PdfSplitTool.WindowsDisjoint` | src/SwissKnife/Tools/PdfSplitTool.cs:117-121 | no two windows share a page |
| `PdfSplitTool.WindowsCover` | src/SwissKnife/Tools/PdfSplitTool.cs:117-121 | every page of the document lies in a window |
| `PdfSplitTool.WindowsRebuildDocument` | src/SwissKnife/Tools/PdfSplitTool.cs:117-174 | the windows' pages, concatenated in order, are the whole document |
| `PdfSplitTool.PartFileName` | src/SwissKnife/Tools/PdfSplitTool.cs:124 | no contract of its own: the name of a pages-mode file; `PdfSplitTool.PartFileNameInjective` states that it determines its three numbers |
| `PdfSplitTool.PartNamesRootedTogether` | src/SwissKnife/Tools/PdfSplitTool.cs:124-125 | all pages-mode names of one base are rooted, or none is |
| `PdfSplitTool.RangeFileName` | src/SwissKnife/Tools/PdfSplitTool.cs:156 | no contract of its own: the name of a range-mode file; `PdfSplitTool.RangeFileNameInjective` states that it determines its three numbers |
| `PdfSplitTool.RangeNamesRootedTogether` | src/SwissKnife/Tools/PdfSplitTool.cs:156-157 | all range-mode names of one base are rooted, or none is |
| `PdfSplitTool.PageSuffixInjective` | src/SwissKnife/Tools/PdfSplitTool.cs:124-156 | the `_p{s}-{e}.pdf` suffix determines both page numbers |
| `PdfSplitTool.PartFileNameInjective` | src/SwissKnife/Tools/PdfSplitTool.cs:124 | a `<base>_part{n:D3}_p{s}-{e}.pdf` name determines n, s and e |
| `PdfSplitTool.RangeFileNameInjective` | src/SwissKnife/Tools/PdfSplitTool.cs:156 | a `<base>_range{n:D2}_p{s}-{e}.pdf` name determines n, s and e |
| `PdfSplitTool.FailureMessage` | src/SwissKnife/Tools/PdfSplitTool.cs:93-108 | access denied gets a fixed message; every other fault's message ends with the fault's own text, after a heading |
| `PdfSplitTool.FailureMessagesDistinct` | src/SwissKnife/Tools/PdfSplitTool.cs:93-108 | faults taken by different clauses give different messages |
| `PdfSplitTool.WriteWindow` | src/SwissKnife/Tools/PdfSplitTool.cs:121-174 | one window is written to its part file and reported; a write fault on that file fails with its message and changes nothing |
| `PdfSplitTool.SplitByPagesPerFile` | src/SwissKnife/Tools/PdfSplitTool.cs:111-136 | windows are written and reported in order until the end, the first cancellation seen, or the first write fault |
| `PdfSplitTool.PagesPhase` | src/SwissKnife/Tools/PdfSplitTool.cs:111-136 | no contract of its own: the windows handled, with the reason the loop stopped; `SplitByPagesPerFile` establishes it, and `PagesRebuildDocument`, `PagesProgressMonotone`, `PagesProgressCompletes` and `PartPathsDistinct` state its consequences |
| `PdfSplitTool.PagesRebuildDocument` | src/SwissKnife/Tools/PdfSplitTool.cs:111-136 | after a successful pages split, the files written, in order, hold the whole document |
| `PdfSplitTool.PagesProgressMonotone` | src/SwissKnife/Tools/PdfSplitTool.cs:121-132 | the pages-mode reports are determinate over `total`, and each `endPage` is strictly greater than the one before |
| `PdfSplitTool.PagesProgressCompletes` | src/SwissKnife/Tools/PdfSplitTool.cs:131-132 | after a successful split of a nonempty document, the last report reads 100% |
| `PdfSplitTool.PartPathsDistinct` | src/SwissKnife/Tools/PdfSplitTool.cs:122-125 | no two windows are written to the same path |
| `PdfSplitTool.DriveBaseEscapesDirectory` | src/SwissKnife/Tools/PdfSplitTool.cs:115-125 | when the base name starts with a drive designator, every part is written at its bare name, outside the output directory |
| `PdfSplitTool.CountValidAll` | src/SwissKnife/Tools/PdfSplitTool.cs:149-155 | every range produces a file exactly when none is out of bounds or reversed |
| `PdfSplitTool.HandleRange` | src/SwissKnife/Tools/PdfSplitTool.cs:147-174 | an invalid range is skipped and nothing else happens; a valid one writes exactly `src[start-1..end]` under the next file number and reports it; a write fault fails with its message |
| `PdfSplitTool.ForEachRange` | src/SwissKnife/Tools/PdfSplitTool.cs:145-165 | ranges are handled in order until the end, the first cancellation seen, or the first write fault |
| `PdfSplitTool.SplitByRanges` | src/SwissKnife/Tools/PdfSplitTool.cs:138-168 | range mode handles exactly the ranges the parser returns |
| `PdfSplitTool.RangesPhase` | src/SwissKnife/Tools/PdfSplitTool.cs:138-168 | no contract of its own: the ranges handled, with the reason the loop stopped; `ForEachRange` and `SplitByRanges` establish it, and `CountValidAll`, `RangesProgressMonotone`, `RangesProgressCompletes` and `RangePathsDistinct` state its consequences |
| `PdfSplitTool.RangesProgressMonotone` | src/SwissKnife/Tools/PdfSplitTool.cs:163-164 | the range-mode reports are determinate over the number of ranges; report c (counting from 0) reads (c+1) over the number of ranges, so the reports strictly increase |
| `PdfSplitTool.RangesProgressCompletes` | src/SwissKnife/Tools/PdfSplitTool.cs:163-164 | range mode ends at 100% exactly when there are ranges and every one was valid |
| `PdfSplitTool.RangePathsDistinct` | src/SwissKnife/Tools/PdfSplitTool.cs:155-157 | no two valid ranges are written to the same path |
| `PdfSplitTool.SplitDocument` | src/SwissKnife/Tools/PdfSplitTool.cs:73-82 | range mode runs exactly when the mode is "range" and the range string is not blank; otherwise pages mode runs |
| `PdfSplitTool.SplitPhase` | src/SwissKnife/Tools/PdfSplitTool.cs:73-82 | no contract of its own: range mode over the parsed ranges exactly when `UsesRanges`, pages mode otherwise; `PdfSplitTool.SplitDocument` and `PdfSplitTool.Run` establish it |
| `PdfSplitTool.Run` | src/SwissKnife/Tools/PdfSplitTool.cs:32-109 | the checks run in order: blank input, missing file, blank output; the output folder is created, then the document opened and split; success returns the folder; cancellation propagates |
| `PdfMergeTool.ParsePaths` | src/SwissKnife/Tools/PdfMergeTool.cs:43-46 | there is one path per nonempty ';'-separated entry |
| `PdfMergeTool.PathsInOrder` | src/SwissKnife/Tools/PdfMergeTool.cs:43-46 | the paths of "a;b" are those of a followed by those of b |
| `PdfMergeTool.EmptyEntryDropped` | src/SwissKnife/Tools/PdfMergeTool.cs:44 | an empty input gives no path |
| `PdfMergeTool.OneEntry` | src/SwissKnife/Tools/PdfMergeTool.cs:44-45 | an entry without ';' is one path, trimmed; it is kept even when it is all blanks, because entries are dropped only when empty before trimming |
| `PdfMergeTool.BlankEntryNotFound` | src/SwissKnife/Tools/PdfMergeTool.cs:43-58 | an entry of blanks becomes the path "", which does not exist, so after existing paths it is the first missing one and the run fails with "File non trovato: " |
| `PdfMergeTool.PathsAreClean` | src/SwissKnife/Tools/PdfMergeTool.cs:43-46 | no path contains ';' or starts or ends with white space |
| `PdfMergeTool.PathCount` | src/SwissKnife/Tools/PdfMergeTool.cs:43-46 | there are at most as many paths as ';'-separated entries |
| `PdfMergeTool.FirstMissing` | src/SwissKnife/Tools/PdfMergeTool.cs:54-60 | the existence check reports the first path that does not exist, and reports none only when all of them exist |
| `PdfMergeTool.PdfMerger.constructor` | src/SwissKnife/Tools/PdfMergeTool.cs:69 | a new merger holds no pages |
| `PdfMergeTool.PdfMerger.Merge` | src/SwissKnife/Tools/PdfMergeTool.cs:80 | merging appends the given page range of the source after the pages already merged |
| `PdfMergeTool.Sources` | src/SwissKnife/Tools/PdfMergeTool.cs:75-79 | one document per source merged, in order |
| `PdfMergeTool.MergedStep` | src/SwissKnife/Tools/PdfMergeTool.cs:78-83 | merging the next source extends the merged pages by its pages and the reports by its report |
| `PdfMergeTool.MergeReportedAt` | src/SwissKnife/Tools/PdfMergeTool.cs:82-83 | the i-th report is that of source i+1: `(i+1) / n` |
| `PdfMergeTool.FailureMessage` | src/SwissKnife/Tools/PdfMergeTool.cs:106-121 | access denied gets a fixed message; every other fault's message ends with the fault's own text, after a heading |
| `PdfMergeTool.FailureMessagesDistinct` | src/SwissKnife/Tools/PdfMergeTool.cs:106-121 | faults taken by different clauses give different messages |
| `PdfMergeTool.MergePhase` | src/SwissKnife/Tools/PdfMergeTool.cs:66-105 | no contract of its own: the merge of the sources before the one that stopped the loop, and why it stopped; `MergeAll` establishes it, and `MergedInOrder`, `MergeProgress`, `CancelledLeavesNoOutput` and `FailureKeepsMergedPrefix` state its consequences |
| `PdfMergeTool.MergeSource` | src/SwissKnife/Tools/PdfMergeTool.cs:75-83 | one source is opened; on failure nothing changes and the fault is the open fault; otherwise its pages are merged and its report added, keeping the loop invariant |
| `PdfMergeTool.MergeLoop` | src/SwissKnife/Tools/PdfMergeTool.cs:71-84 | the sources are merged and reported in order until the end, the first poll that sees cancellation, or the first source that fails to open, with the fault of that source |
| `PdfMergeTool.MergeAll` | src/SwissKnife/Tools/PdfMergeTool.cs:66-105 | the output is opened with default settings, then each source is polled, opened, merged and reported; leaving `Task.Run` after the writer is open writes the pages merged so far, all of them on success; a cancellation then deletes the output if it exists |
| `PdfMergeTool.Run` | src/SwissKnife/Tools/PdfMergeTool.cs:30-122 | the checks run in order: blank input, blank output, fewer than 2 paths, the first missing path ("File non trovato: {path}"); all of them come before any output is opened; then the merge runs |
| `PdfMergeTool.MergedInOrder` | src/SwissKnife/Tools/PdfMergeTool.cs:71-80 | in the merged output, source i's pages come right after those of the sources before it and right before those after it |
| `PdfMergeTool.MergeProgress` | src/SwissKnife/Tools/PdfMergeTool.cs:82-83 | the report after source i is `(i+1)/n`, so the reports strictly increase, and on success they end at 100% |
| `PdfMergeTool.CancelledLeavesNoOutput` | src/SwissKnife/Tools/PdfMergeTool.cs:94-105 | a cancelled merge leaves no output file, whether or not one existed before, unless its deletion fails; then the file stays whenever the writer had been opened, or when it existed before |
| `PdfMergeTool.FailureKeepsMergedPrefix` | src/SwissKnife/Tools/PdfMergeTool.cs:68-80 | when a source fails to open after the writer was opened, the output file is left behind holding exactly the pages of the sources before it, all of which opened |
| `PdfCompressTool.LevelOfValue` | src/SwissKnife/Tools/PdfCompressTool.cs:26-31 | integers 0, 1 and 2 are Low, Medium and High; any other integer is an enum value with no name |
| `PdfCompressTool.ParseLevel` | src/SwissKnife/Tools/PdfCompressTool.cs:59-62 | no contract of its own: `Enum.TryParse` with the Medium fallback; `ParseLevelName`, `UnparsableIsMedium`, `WrongCaseIsMedium`, `NumericLevel`, `TrailingNulLevel`, `WideTrailingWhiteIsMedium` and `NoBreakSpaceExample` carry its properties |
| `PdfCompressTool.LevelOf` | src/SwissKnife/Tools/PdfCompressTool.cs:58-62 | no contract of its own: the level of the `compressionLevel` parameter; `PdfCompressTool.MissingLevelIsMedium` carries its default |
| `PdfCompressTool.ParseLevelName` | src/SwissKnife/Tools/PdfCompressTool.cs:59 | each level's name, with any white space on either side, parses back to that level |
| `PdfCompressTool.MissingLevelIsMedium` | src/SwissKnife/Tools/PdfCompressTool.cs:58 | a missing level parameter, or one that is not a string, means Medium |
| `PdfCompressTool.UnparsableIsMedium` | src/SwissKnife/Tools/PdfCompressTool.cs:59-62 | text that is neither a name nor starts like a number falls back to Medium |
| `PdfCompressTool.WrongCaseIsMedium` | src/SwissKnife/Tools/PdfCompressTool.cs:59-62 | names are matched with case, so "low" and "HIGH" fall back to Medium |
| `PdfCompressTool.NumericLevel` | src/SwissKnife/Tools/PdfCompressTool.cs:59-62 | a level written in digits, after any leading white space, is the enum value of that number, named or not; a number beyond 32 bits gives Medium |
| `PdfCompressTool.TrailingNulLevel` | src/SwissKnife/Tools/PdfCompressTool.cs:59 | a number followed by '\0' is still that number's level |
| `PdfCompressTool.WideTrailingWhiteIsMedium` | src/SwissKnife/Tools/PdfCompressTool.cs:59-62 | a number followed by white space that is not ASCII white space does not parse, so the level is Medium |
| `PdfCompressTool.NoBreakSpaceExample` | src/SwissKnife/Tools/PdfCompressTool.cs:59-62 | "2" followed by a no-break space gives Medium, not High |
| `PdfCompressTool.LevelValueRange` | src/SwissKnife/Tools/PdfCompressTool.cs:166-175 | the codec level is always 3, 6 or 9, and it is 6 exactly for Medium and for values with no name |
| `PdfCompressTool.LevelValueOrder` | src/SwissKnife/Tools/PdfCompressTool.cs:166-175 | Low, Medium and High map to increasing codec levels |
| `PdfCompressTool.LevelValue` | src/SwissKnife/Tools/PdfCompressTool.cs:166-175 | no contract of its own: `GetCompressionLevelValue`; `LevelValueRange` and `LevelValueOrder` carry its properties |
| `PdfCompressTool.SettingsFor` | src/SwissKnife/Tools/PdfCompressTool.cs:78-81 | no contract of its own: the writer's properties; `PdfCompressTool.WriterSettingsOfRun` states what a run opens the writer with |
| `PdfCompressTool.UnitIndexUnique` | src/SwissKnife/Tools/PdfCompressTool.cs:177-189 | each size has exactly one unit index |
| `PdfCompressTool.FormatFileSize` | src/SwissKnife/Tools/PdfCompressTool.cs:177-189 | the unit is B, KB, MB or GB at the largest index k ≤ 3 with bytes ≥ 1024^k (index 0 below 1024 and for negative sizes); the value shown is bytes / 1024^k |
| `PdfCompressTool.ScaledCompare` | src/SwissKnife/Tools/PdfCompressTool.cs:183-186 | comparing the scaled value with 1024 compares the size with the next power of 1024, and one division moves to the next power |
| `PdfCompressTool.ErrorDetail` | src/SwissKnife/Tools/PdfCompressTool.cs:131-133 | the detail starts with the fault's message; it is exactly that message when there is no inner exception, and otherwise it ends with the inner message |
| `PdfCompressTool.ClauseOf` | src/SwissKnife/Tools/PdfCompressTool.cs:128-163 | no contract of its own: the first `catch` clause that takes each kind of fault; `PdfCompressTool.FailureMessagesDistinct` states that different clauses give different messages |
| `PdfCompressTool.Heading` | src/SwissKnife/Tools/PdfCompressTool.cs:128-163 | each clause's fixed heading is told apart from the others by its first, eighth or eleventh character |
| `PdfCompressTool.FailureMessage` | src/SwissKnife/Tools/PdfCompressTool.cs:128-163 | iText PDF errors, iText I/O errors and unexpected errors show the detail (the message, then the inner message if any) after their clause's heading; I/O errors show the message only; access denied has a fixed message |
| `PdfCompressTool.FailureMessagesDistinct` | src/SwissKnife/Tools/PdfCompressTool.cs:128-163 | faults taken by different clauses give different messages |
| `PdfCompressTool.VisitPages` | src/SwissKnife/Tools/PdfCompressTool.cs:88-97 | pages 1..total are visited in order, once each, and each is reported; the loop stops early exactly at the first poll that sees cancellation |
| `PdfCompressTool.PageProgress` | src/SwissKnife/Tools/PdfCompressTool.cs:95-96 | the page reports strictly increase over `total` and end at 100% when every page is visited |
| `PdfCompressTool.Run` | src/SwissKnife/Tools/PdfCompressTool.cs:40-164 | the checks run in order: blank input, missing file, blank output. Then the reader, the writer (with the level's settings and full compression) and the document are opened, and the pages visited. Success returns the output path; a cancellation among the pages writes the document on disposal, then deletes the output if it exists |
| `PdfCompressTool.CompressPhase` | src/SwissKnife/Tools/PdfCompressTool.cs:64-127 | no contract of its own: the `try` block and its handlers; `PdfCompressTool.Run` establishes it, and `NotSmallerStillSucceeds`, `CancelledLeavesNoOutput` and `WriterSettingsOfRun` state its consequences |
| `PdfCompressTool.NotSmallerStillSucceeds` | src/SwissKnife/Tools/PdfCompressTool.cs:102-114 | a successful compression returns the output path after writing every page of the input; the "not smaller" note is added exactly when the output is at least as large as the input |
| `PdfCompressTool.CancelledLeavesNoOutput` | src/SwissKnife/Tools/PdfCompressTool.cs:116-127 | a cancelled compression leaves no output file, whether or not one existed before, unless its deletion fails; then the file stays whenever the pages were reached, or when it existed before |
| `PdfCompressTool.WriterSettingsOfRun` | src/SwissKnife/Tools/PdfCompressTool.cs:78-81 | the output writer uses full compression and a codec level of 3, 6 or 9 |

## Left out

- Logging (`context.Logger`) and the wording of progress messages: they are not modelled. Progress messages are
  kept as structured values, and the "not smaller" log line as a trace event.
- Floating point: percentages, `reductionPercent` and the `0.##` rendering of `FormatFileSize` are not computed.
  Progress is an integer ratio. `FormatFileSize` divides exactly, as binary floating point does when dividing by
  1024, and it returns the value and the unit instead of the rendered text.
- Integer overflow: integers are unbounded. `startPage += pagesPerFile` (src/SwissKnife/Tools/PdfSplitTool.cs:117)
  can wrap around in 32 bits when `pagesPerFile` is close to `Int32.MaxValue`. The model does not wrap, so it
  ends the loop there.
- Asynchrony and threads: `Task.Run`, `ReadAsync` and the progress callback are modelled sequentially.
  Cancellation is a numbered sequence of polls.
- The iText codec (`PdfReader`, `PdfWriter`, `PdfDocument`, `CopyPagesTo`, `WriterProperties`, the internals of
  `PdfMerger`): a document is a sequence of opaque pages.
  - Opening a file yields the pages or a fault.
  - Faults raised while copying pages, or while a document is closed on disposal, are not modelled.
  - Compression re-encodes pages without changing them, and the compressed size is an input to
    `PdfCompressTool.Run`.
- SHA-256 is an uninterpreted function of the whole content. FIPS 180-4 itself is not verified.
- Case folding: identifiers are upper-cased over ASCII letters only. `OrdinalIgnoreCase` also folds other letters.
- `Registry.ToolRegistry.GetAll`: the order of the list is left open, as the dictionary's enumeration order is not
  specified.
- The output path coinciding with an input path (aliasing of files) is not modelled: the snapshot is read as it
  was before the run.
- Faults while reading a file during hashing, after it was opened, are not modelled. Only the open can fail.
- `Text.TryParseInt32`: the current culture's signs are taken to be '+' and '-'. A culture with other sign
  strings would change what `int.TryParse` accepts.
- `Enum.TryParse` also accepts comma-separated lists of names (flags). `PdfCompressTool.ParseLevel` does not
  model them: it treats such text as unparsable, so it becomes Medium.
- The user interface, the theme manager, and the data holders `ITool.cs`, `ToolContext.cs` and `ToolProgress.cs`
  are represented only by the datatypes of `ToolCore`. Tools are values (`ToolCore.Tool`), not objects behind an
  interface.
- `Paths.GetFileName`: only drive designators are recognised as roots. The roots of UNC paths (`\\server\share`)
  and of device paths (`\\?\`) are not modelled, so for such a path the name may be a component of its root.
- `PdfMergeTool.MergeAll`: disposal always writes the pages merged so far, even when there are none. iText refuses
  to close a document without pages and raises a fault of its own on disposal, which replaces the original outcome
  (a first source that fails, or a cancellation before any source is merged). Disposal faults are not modelled.
- `PdfSplitTool.ParseRanges`: its length bound is the separate lemma `PdfSplitTool.RangeListLength`, not part of
  the method's contract.
