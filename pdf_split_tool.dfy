/**
 * `PdfSplitTool` ("pdf.split"): splits a PDF into several documents, either
 * into windows of a fixed number of pages ("pages" mode) or along a list of
 * page ranges ("range" mode). A document is its sequence of pages; extracting
 * pages `s..e` (1-based, inclusive) is the slice `src[s - 1..e]`.
 */
module PdfSplitTool {
  import opened Values
  import opened Text
  import opened Paths
  import opened ToolCore

  const ToolId: string := "pdf.split"

  const MissingInputMessage: string := "File PDF non specificato."
  const NotFoundMessage: string := "Il file PDF specificato non esiste."
  const MissingOutputMessage: string := "Cartella di output non specificata."
  const AccessDeniedMessage: string := "Accesso negato. Verifica i permessi."

  // ---------------------------------------------------------------------------
  // ParseRanges
  // ---------------------------------------------------------------------------

  /** A page range `(start, end)` as the parser returns it, not yet checked against the document. */
  type Range = (int, int)

  /**
   * One comma-separated token: trimmed, then either "a-b" (exactly one '-',
   * both sides integers) or a single integer "p", read as `(p, p)`.
   */
  function ParseToken(part: string): Option<Range> {
    var trimmed := Trim(part);
    if '-' in trimmed then
      var nums := Split(trimmed, '-');
      if |nums| == 2 then
        match (TryParseInt32(Trim(nums[0])), TryParseInt32(Trim(nums[1])))
        case (Some(start), Some(end)) => Some((start, end))
        case _ => None
      else None
    else
      match TryParseInt32(trimmed)
      case Some(page) => Some((page, page))
      case None => None
  }

  /** The range of one token as a list: empty when the token is malformed. */
  function TokenOf(part: string): (r: seq<Range>)
    ensures |r| <= 1
  {
    match ParseToken(part)
    case Some(range) => [range]
    case None => []
  }

  /** The lists `f` gives for the elements of `xs`, joined in order. */
  function FlatMap<A, B>(xs: seq<A>, f: A -> seq<B>): seq<B> {
    if xs == [] then [] else FlatMap(xs[..|xs| - 1], f) + f(xs[|xs| - 1])
  }

  lemma {:induction false} FlatMapAppend<A, B>(a: seq<A>, b: seq<A>, f: A -> seq<B>)
    ensures FlatMap(a + b, f) == FlatMap(a, f) + FlatMap(b, f)
    decreases |b|
  {
    if b == [] {
      assert a + b == a;
    } else {
      var ab := a + b;
      assert ab[..|ab| - 1] == a + b[..|b| - 1] && ab[|ab| - 1] == b[|b| - 1];
      FlatMapAppend(a, b[..|b| - 1], f);
    }
  }

  lemma FlatMapSingle<A, B>(x: A, f: A -> seq<B>)
    ensures FlatMap([x], f) == f(x)
  {
    assert [x][..0] == [];
  }

  /** The ranges of a list of tokens, in token order; malformed tokens contribute nothing. */
  function TokenRanges(parts: seq<string>): seq<Range> {
    FlatMap(parts, TokenOf)
  }

  /** What `ParseRanges(rangeStr)` returns. */
  function RangeList(rangeStr: string): seq<Range> {
    TokenRanges(RemoveEmpty(Split(rangeStr, ',')))
  }

  /** `ParseRanges`: splits at ',' dropping empty entries, then reads every entry in order. */
  method ParseRanges(rangeStr: string) returns (ranges: seq<Range>)
    ensures ranges == RangeList(rangeStr)
  {
    var parts := RemoveEmpty(Split(rangeStr, ','));
    ranges := ForEachToken(parts);
  }

  /** The `foreach` of `ParseRanges`: appends the range of every well-formed token, in order. */
  method ForEachToken(parts: seq<string>) returns (ranges: seq<Range>)
    ensures ranges == TokenRanges(parts)
  {
    ranges := [];
    var i := 0;
    while i < |parts|
      invariant 0 <= i <= |parts|
      invariant ranges == TokenRanges(parts[..i])
    {
      ranges := ReadToken(parts, i, ranges);
      i := i + 1;
    }
    assert parts[..i] == parts;
  }

  /** At most one range per comma-separated entry. */
  lemma RangeListLength(rangeStr: string)
    ensures |RangeList(rangeStr)| <= Count(rangeStr, ',') + 1
  {
    var entries := Split(rangeStr, ',');
    TokenRangesLength(RemoveEmpty(entries));
    SplitCount(rangeStr, ',');
  }

  /** The body of the `foreach` in `ParseRanges`: appends what token `i` yields, if anything. */
  method ReadToken(parts: seq<string>, i: nat, ranges: seq<Range>) returns (ranges': seq<Range>)
    requires i < |parts| && ranges == TokenRanges(parts[..i])
    ensures ranges' == TokenRanges(parts[..i + 1])
  {
    TokenRangesStep(parts, i);
    ranges' := ranges + TokenOf(parts[i]);
  }

  lemma TokenRangesStep(parts: seq<string>, i: nat)
    requires i < |parts|
    ensures TokenRanges(parts[..i + 1]) == TokenRanges(parts[..i]) + TokenOf(parts[i])
  {
    assert parts[..i + 1][..i] == parts[..i];
  }

  lemma {:induction false} TokenRangesLength(parts: seq<string>)
    ensures |TokenRanges(parts)| <= |parts|
  {
    if parts != [] {
      TokenRangesLength(parts[..|parts| - 1]);
    }
  }

  lemma TokenRangesAppend(a: seq<string>, b: seq<string>)
    ensures TokenRanges(a + b) == TokenRanges(a) + TokenRanges(b)
  {
    FlatMapAppend(a, b, TokenOf);
  }

  /** Ranges come out in token order: the ranges of "a,b" are those of a, then those of b. */
  lemma RangeListAppend(a: string, b: string)
    ensures RangeList(a + [','] + b) == RangeList(a) + RangeList(b)
  {
    SplitAppend(a, b, ',');
    RemoveEmptyAppend(Split(a, ','), Split(b, ','));
    TokenRangesAppend(RemoveEmpty(Split(a, ',')), RemoveEmpty(Split(b, ',')));
  }

  /** Empty comma entries contribute nothing: the empty string yields no range. */
  lemma RangeListEmpty()
    ensures RangeList("") == []
  {
    assert Split("", ',') == [""];
  }

  /** A token with two or more hyphens is dropped. */
  lemma ManyHyphensRejected(part: string)
    requires Count(Trim(part), '-') >= 2
    ensures ParseToken(part) == None
  {
    SplitCount(Trim(part), '-');
    assert '-' in Trim(part) by {
      CountPositive(Trim(part), '-');
    }
  }

  lemma {:induction false} CountPositive(s: string, c: char)
    requires Count(s, c) > 0
    ensures c in s
  {
    if s[0] != c {
      CountPositive(s[1..], c);
    }
  }

  /**
   * A token containing '-' is never read as a single page: if it yields a
   * range at all, it has exactly one '-' and the range is read from its two
   * sides.
   */
  lemma HyphenatedTokenHasTwoSides(part: string)
    requires '-' in Trim(part) && ParseToken(part).Some?
    ensures Count(Trim(part), '-') == 1
    ensures var nums := Split(Trim(part), '-');
      |nums| == 2 && Join(nums, '-') == Trim(part)
      && ParseToken(part) == Some((TryParseInt32(Trim(nums[0])).value, TryParseInt32(Trim(nums[1])).value))
  {
    SplitCount(Trim(part), '-');
    JoinSplit(Trim(part), '-');
  }

  /**
   * Conversely, a token with exactly one '-' splits into two sides, and it
   * yields a range exactly when both trimmed sides are integers: the range of
   * those two values. So "1 - 3", "03-5" and "+2-4" are ranges.
   */
  lemma HyphenatedTokenParsed(part: string)
    requires Count(Trim(part), '-') == 1
    ensures var nums := Split(Trim(part), '-');
      |nums| == 2
      && (ParseToken(part).Some? <==> TryParseInt32(Trim(nums[0])).Some? && TryParseInt32(Trim(nums[1])).Some?)
      && (ParseToken(part).Some? ==>
            ParseToken(part) == Some((TryParseInt32(Trim(nums[0])).value, TryParseInt32(Trim(nums[1])).value)))
  {
    SplitCount(Trim(part), '-');
    CountPositive(Trim(part), '-');
  }

  /** A non-empty digit string has no white space to trim and no '-'. */
  lemma DigitsUntouched(d: string)
    requires d != [] && AllDigits(d)
    ensures Trim(d) == d && '-' !in d
  {
    assert IsDigit(d[0]) && IsDigit(d[|d| - 1]);
    TrimUntouched(d);
    forall i | 0 <= i < |d| ensures d[i] != '-' {
      assert IsDigit(d[i]);
    }
  }

  /** "a-b" with digit-string sides is already trimmed, and splits at '-' into its two sides. */
  lemma DigitRangeSplits(da: string, db: string)
    requires da != [] && AllDigits(da) && db != [] && AllDigits(db)
    ensures var token := da + "-" + db;
      Trim(token) == token && '-' in token && Split(token, '-') == [da, db]
  {
    var token := da + "-" + db;
    assert token[0] == da[0] && token[|token| - 1] == db[|db| - 1];
    assert IsDigit(da[0]) && IsDigit(db[|db| - 1]);
    TrimUntouched(token);
    assert token[|da|] == '-';
    DigitsUntouched(da);
    DigitsUntouched(db);
    SplitAppend(da, db, '-');
    SplitNoSeparator(da, '-');
    SplitNoSeparator(db, '-');
  }

  /** "a-b" with decimal sides yields `(a, b)`, even when `a > b`. */
  lemma DecimalRangeParsed(a: nat, b: nat)
    requires a <= Int32Max && b <= Int32Max
    ensures ParseToken(NatToDecimal(a) + "-" + NatToDecimal(b)) == Some((a, b))
  {
    var da, db := NatToDecimal(a), NatToDecimal(b);
    DigitRangeSplits(da, db);
    DigitsUntouched(da);
    DigitsUntouched(db);
    ParseFormatted(a);
    ParseFormatted(b);
  }

  /** A decimal token without '-' is the single page `(p, p)`. */
  lemma DecimalPageParsed(p: nat)
    requires p <= Int32Max
    ensures ParseToken(NatToDecimal(p)) == Some((p, p))
  {
    DigitsUntouched(NatToDecimal(p));
    ParseFormatted(p);
  }

  /** No side of a parsed range carries a sign: every value is at least 0. */
  lemma RangeValuesNonNegative(rangeStr: string)
    ensures forall r :: r in RangeList(rangeStr) ==> r.0 >= 0 && r.1 >= 0
  {
    TokenValuesNonNegative(RemoveEmpty(Split(rangeStr, ',')));
  }

  lemma {:induction false} TokenValuesNonNegative(parts: seq<string>)
    ensures forall r :: r in TokenRanges(parts) ==> r.0 >= 0 && r.1 >= 0
  {
    if parts != [] {
      var n := |parts| - 1;
      TokenValuesNonNegative(parts[..n]);
      TokenOfNonNegative(parts[n]);
      TokenRangesStep(parts, n);
      assert parts[..n + 1] == parts;
    }
  }

  /** Both sides of a token's range are read without a sign. */
  lemma TokenOfNonNegative(part: string)
    ensures forall r :: r in TokenOf(part) ==> r.0 >= 0 && r.1 >= 0
  {
    var trimmed := Trim(part);
    if '-' in trimmed {
      var nums := Split(trimmed, '-');
      if |nums| == 2 {
        TrimAddsNothing(nums[0], Unicode, '-');
        TrimAddsNothing(nums[1], Unicode, '-');
      }
    }
    match ParseToken(part)
    case Some(r) =>
      assert r.0 >= 0 && r.1 >= 0;
      assert TokenOf(part) == [r];
    case None =>
      assert TokenOf(part) == [];
  }

  /** A leading comma-free token that yields `r` contributes `r` in front of the rest. */
  lemma FirstToken(token: string, rest: string, r: Range)
    requires token != [] && ',' !in token && ParseToken(token) == Some(r)
    ensures RangeList(token + [','] + rest) == [r] + RangeList(rest)
  {
    RangeListAppend(token, rest);
    SingleToken(token);
  }

  /** "a-b" with decimal sides holds no comma. */
  lemma DecimalRangeCommaFree(a: nat, b: nat)
    ensures ',' !in NatToDecimal(a) + "-" + NatToDecimal(b)
  {
    var da, db := NatToDecimal(a), NatToDecimal(b);
    DigitsCommaFree(da);
    DigitsCommaFree(db);
    var token := da + "-" + db;
    forall i | 0 <= i < |token| ensures token[i] != ',' {
      if i < |da| {
        assert token[i] == da[i];
      } else if i > |da| {
        assert token[i] == db[i - |da| - 1];
      }
    }
  }

  /** A leading "a-b" token with decimal sides contributes `(a, b)` in front of the rest. */
  lemma DecimalRangeFirst(a: nat, b: nat, rest: string)
    requires a <= Int32Max && b <= Int32Max
    ensures RangeList(NatToDecimal(a) + "-" + NatToDecimal(b) + [','] + rest) == [(a, b)] + RangeList(rest)
  {
    DecimalRangeParsed(a, b);
    DecimalRangeCommaFree(a, b);
    FirstToken(NatToDecimal(a) + "-" + NatToDecimal(b), rest, (a, b));
  }

  /** A leading decimal token `p` contributes `(p, p)` in front of the rest. */
  lemma DecimalPageFirst(p: nat, rest: string)
    requires p <= Int32Max
    ensures RangeList(NatToDecimal(p) + [','] + rest) == [(p, p)] + RangeList(rest)
  {
    DecimalPageParsed(p);
    DigitsCommaFree(NatToDecimal(p));
    FirstToken(NatToDecimal(p), rest, (p, p));
  }

  /** "1-3,5-7,10" gives [(1, 3), (5, 7), (10, 10)]. */
  lemma RangeListExample()
    ensures RangeList("1-3,5-7,10") == [(1, 3), (5, 7), (10, 10)]
  {
    ExampleFirstRange();
    ExampleSecondRange();
    ExampleLastPage();
  }

  lemma ExampleFirstRange()
    ensures RangeList("1-3,5-7,10") == [(1, 3)] + RangeList("5-7,10")
  {
    assert NatToDecimal(1) == "1" && NatToDecimal(3) == "3";
    assert "1-3,5-7,10" == NatToDecimal(1) + "-" + NatToDecimal(3) + [','] + "5-7,10";
    DecimalRangeFirst(1, 3, "5-7,10");
  }

  lemma ExampleSecondRange()
    ensures RangeList("5-7,10") == [(5, 7)] + RangeList("10")
  {
    assert NatToDecimal(5) == "5" && NatToDecimal(7) == "7";
    assert "5-7,10" == NatToDecimal(5) + "-" + NatToDecimal(7) + [','] + "10";
    DecimalRangeFirst(5, 7, "10");
  }

  lemma ExampleLastPage()
    ensures RangeList("10") == [(10, 10)]
  {
    assert NatToDecimal(10) == "10";
    DecimalPageParsed(10);
    DigitsCommaFree("10");
    SingleToken("10");
  }

  lemma DigitsCommaFree(d: string)
    requires AllDigits(d)
    ensures ',' !in d
  {
    forall i | 0 <= i < |d| ensures d[i] != ',' {
      assert IsDigit(d[i]);
    }
  }

  /** A token whose trimmed text starts with '-' (such as "-5") is dropped: its left side is empty. */
  lemma LeadingHyphenRejected(part: string)
    requires Trim(part) != [] && Trim(part)[0] == '-'
    ensures ParseToken(part) == None
  {
    var trimmed := Trim(part);
    assert Split(trimmed, '-')[0] == "";
    assert Trim("") == "" by {
      assert AllWhite(Unicode, "");
    }
    ParseRejects();
  }

  /** A token without '-' and without any digit (such as "abc") is dropped. */
  lemma WordRejected(part: string)
    requires '-' !in Trim(part)
    requires forall i :: 0 <= i < |Trim(part)| ==> !IsDigit(Trim(part)[i])
    ensures ParseToken(part) == None
  {
  }

  /** A comma-free non-empty token is one entry of the list. */
  lemma SingleToken(token: string)
    requires token != [] && ',' !in token
    ensures RangeList(token) == TokenOf(token)
  {
    SplitNoSeparator(token, ',');
    assert RemoveEmpty([token]) == [token] by {
      assert [token][1..] == [];
    }
    OneTokenRanges(token);
  }

  /** The ranges of one token. */
  lemma OneTokenRanges(token: string)
    ensures TokenRanges([token]) == TokenOf(token)
  {
    FlatMapSingle(token, TokenOf);
  }


  // ---------------------------------------------------------------------------
  // Pages mode: windows of `pagesPerFile` pages
  // ---------------------------------------------------------------------------

  /** The `pagesPerFile` parameter: its value when it parses to at least 1, otherwise 1. */
  function PagesPerFile(pagesPerFileStr: string): (k: nat)
    ensures k >= 1
    ensures TryParseInt32(pagesPerFileStr).Some? && TryParseInt32(pagesPerFileStr).value >= 1 ==>
      k == TryParseInt32(pagesPerFileStr).value
    ensures TryParseInt32(pagesPerFileStr).None? || TryParseInt32(pagesPerFileStr).value < 1 ==> k == 1
  {
    match TryParseInt32(pagesPerFileStr)
    case Some(v) => if v < 1 then 1 else v
    case None => 1
  }

  /** A positive count written in decimal is taken as it is; the default "1" gives 1. */
  lemma PagesPerFileOfDecimal(n: nat)
    requires 1 <= n <= Int32Max
    ensures PagesPerFile(NatToDecimal(n)) == n
  {
    ParseFormatted(n);
  }

  /** How many windows of `k` pages a document of `total` pages needs: the ceiling of `total / k`. */
  function WindowCount(total: nat, k: nat): nat
    requires k >= 1
  {
    (total + k - 1) / k
  }

  /** The first page of window `i`. */
  function WindowStart(i: nat, k: nat): nat {
    1 + i * k
  }

  /** The last page of window `i`: `Math.Min(startPage + pagesPerFile - 1, totalPages)`. */
  function WindowEnd(i: nat, k: nat, total: nat): nat {
    if (i + 1) * k <= total then (i + 1) * k else total
  }

  /** Window `i` exists exactly when it starts inside the document, the loop condition. */
  lemma WindowCountExact(total: nat, k: nat, i: nat)
    requires k >= 1
    ensures i < WindowCount(total, k) <==> WindowStart(i, k) <= total
  {
    var q, r := (total + k - 1) / k, (total + k - 1) % k;
    assert total + k - 1 == q * k + r && 0 <= r < k;
    if i < q {
      MulMono(i + 1, q, k);
      assert (i + 1) * k == i * k + k;
    } else {
      MulMono(q, i, k);
    }
  }

  lemma MulMono(a: nat, b: nat, k: nat)
    requires a <= b
    ensures a * k <= b * k
  {
  }

  /** Every window lies inside the document, is non-empty and has at most `k` pages. */
  lemma WindowBounds(total: nat, k: nat, i: nat)
    requires k >= 1 && i < WindowCount(total, k)
    ensures 1 <= WindowStart(i, k) <= WindowEnd(i, k, total) <= total
    ensures WindowEnd(i, k, total) - WindowStart(i, k) < k
  {
    WindowCountExact(total, k, i);
    assert (i + 1) * k == i * k + k;
  }

  /** Each window starts right after the previous one ends. */
  lemma WindowsConsecutive(total: nat, k: nat, i: nat)
    requires k >= 1 && i + 1 < WindowCount(total, k)
    ensures WindowStart(i + 1, k) == WindowEnd(i, k, total) + 1
  {
    WindowCountExact(total, k, i + 1);
  }

  /** The first window starts at page 1, the last ends at the last page; an empty document has none. */
  lemma WindowsSpanDocument(total: nat, k: nat)
    requires k >= 1
    ensures WindowCount(total, k) == 0 <==> total == 0
    ensures WindowCount(total, k) > 0 ==> WindowStart(0, k) == 1 && WindowEnd(WindowCount(total, k) - 1, k, total) == total
  {
    var n := WindowCount(total, k);
    WindowCountExact(total, k, 0);
    if n > 0 {
      WindowCountExact(total, k, n);
      assert (n - 1 + 1) * k == n * k;
    }
  }

  /** The number of windows is the ceiling of `total / k`. */
  lemma WindowCountIsCeiling(total: nat, k: nat)
    requires k >= 1 && total > 0
    ensures (WindowCount(total, k) - 1) * k < total <= WindowCount(total, k) * k
  {
    var n := WindowCount(total, k);
    WindowsSpanDocument(total, k);
    WindowCountExact(total, k, n - 1);
    WindowCountExact(total, k, n);
  }

  /** Windows are disjoint and in order: an earlier window ends before a later one starts. */
  lemma WindowsDisjoint(total: nat, k: nat, i: nat, j: nat)
    requires k >= 1 && i < j < WindowCount(total, k)
    ensures WindowEnd(i, k, total) < WindowStart(j, k)
  {
    MulMono(i + 1, j, k);
  }

  /** Every page of the document lies in some window. */
  lemma WindowsCover(total: nat, k: nat, page: nat)
    requires k >= 1 && 1 <= page <= total
    ensures var i := (page - 1) / k;
      i < WindowCount(total, k) && WindowStart(i, k) <= page <= WindowEnd(i, k, total)
  {
    var i := (page - 1) / k;
    assert page - 1 == i * k + (page - 1) % k;
    assert (i + 1) * k == i * k + k;
    WindowCountExact(total, k, i);
  }

  /** The pages of window `i` of `src`. */
  function WindowPages(src: seq<Page>, k: nat, i: nat): seq<Page>
    requires k >= 1 && i < WindowCount(|src|, k)
  {
    WindowBounds(|src|, k, i);
    src[WindowStart(i, k) - 1..WindowEnd(i, k, |src|)]
  }

  /** The pages of the first `m` windows, one document per window. */
  function FirstWindows(src: seq<Page>, k: nat, m: nat): (docs: seq<seq<Page>>)
    requires k >= 1 && m <= WindowCount(|src|, k)
    ensures |docs| == m
    ensures forall i :: 0 <= i < m ==> docs[i] == WindowPages(src, k, i)
  {
    if m == 0 then [] else FirstWindows(src, k, m - 1) + [WindowPages(src, k, m - 1)]
  }

  /** The first `m` windows, put back together, are the document up to the end of window `m - 1`. */
  /** Appending the slice that follows a prefix extends the prefix. */
  lemma ConcatStep(docs: seq<seq<Page>>, src: seq<Page>, d: nat, e: nat)
    requires docs != [] && d <= e <= |src|
    requires Concat(docs[..|docs| - 1]) == src[..d] && docs[|docs| - 1] == src[d..e]
    ensures Concat(docs) == src[..e]
  {
    PrefixJoin(src, d, e);
  }

  /** The last document of `FirstWindows(src, k, m)` is window `m - 1`, after the first `m - 1` windows. */
  lemma FirstWindowsLast(src: seq<Page>, k: nat, m: nat)
    requires k >= 1 && 0 < m <= WindowCount(|src|, k)
    ensures var docs := FirstWindows(src, k, m);
      docs[..m - 1] == FirstWindows(src, k, m - 1) && docs[m - 1] == WindowPages(src, k, m - 1)
  {
  }

  lemma {:induction false} WindowsPrefix(src: seq<Page>, k: nat, m: nat)
    requires k >= 1 && 0 < m <= WindowCount(|src|, k)
    ensures Concat(FirstWindows(src, k, m)) == src[..WindowEnd(m - 1, k, |src|)]
  {
    var docs := FirstWindows(src, k, m);
    var e := WindowEnd(m - 1, k, |src|);
    FirstWindowsLast(src, k, m);
    WindowBounds(|src|, k, m - 1);
    var start := WindowStart(m - 1, k) - 1;
    assert docs[m - 1] == src[start..e];
    if m == 1 {
      ConcatStep(docs, src, start, e);
    } else {
      WindowsPrefix(src, k, m - 1);
      WindowsConsecutive(|src|, k, m - 2);
      ConcatStep(docs, src, start, e);
    }
  }

  /** Put back together, the windows are the whole document: nothing is lost, repeated or reordered. */
  lemma WindowsRebuildDocument(src: seq<Page>, k: nat)
    requires k >= 1
    ensures Concat(FirstWindows(src, k, WindowCount(|src|, k))) == src
  {
    var n := WindowCount(|src|, k);
    WindowsSpanDocument(|src|, k);
    if n > 0 {
      WindowsPrefix(src, k, n);
      assert src[..|src|] == src;
    }
  }

  // ---------------------------------------------------------------------------
  // Output file names
  // ---------------------------------------------------------------------------

  /** `{base}_part{n:D3}_p{s}-{e}.pdf`, the name of the `n`-th file of pages mode. */
  function PartFileName(base: string, n: nat, s: nat, e: nat): string {
    base + ("_part" + (FormatD(n, 3) + PageSuffix(s, e)))
  }

  /** `{base}_range{n:D2}_p{s}-{e}.pdf`, the name of the `n`-th file of range mode. */
  function RangeFileName(base: string, n: nat, s: nat, e: nat): string {
    base + ("_range" + (FormatD(n, 2) + PageSuffix(s, e)))
  }

  /** `_p{s}-{e}.pdf`, the tail both name forms share. */
  function PageSuffix(s: nat, e: nat): string {
    "_p" + (NatToDecimal(s) + ("-" + (NatToDecimal(e) + ".pdf")))
  }

  /** Two pages-mode names from one base are rooted (`Path.IsPathRooted`) exactly together. */
  lemma PartNamesRootedTogether(base: string, n1: nat, s1: nat, e1: nat, n2: nat, s2: nat, e2: nat)
    ensures IsRooted(PartFileName(base, n1, s1, e1)) <==> IsRooted(PartFileName(base, n2, s2, e2))
  {
    var t1, t2 := "_part" + (FormatD(n1, 3) + PageSuffix(s1, e1)), "_part" + (FormatD(n2, 3) + PageSuffix(s2, e2));
    assert t1[0] == '_' && t2[0] == '_';
    RootedTogether(base, t1, t2);
  }

  /** Two range-mode names from one base are rooted exactly together. */
  lemma RangeNamesRootedTogether(base: string, n1: nat, s1: nat, e1: nat, n2: nat, s2: nat, e2: nat)
    ensures IsRooted(RangeFileName(base, n1, s1, e1)) <==> IsRooted(RangeFileName(base, n2, s2, e2))
  {
    var t1, t2 := "_range" + (FormatD(n1, 2) + PageSuffix(s1, e1)), "_range" + (FormatD(n2, 2) + PageSuffix(s2, e2));
    assert t1[0] == '_' && t2[0] == '_';
    RootedTogether(base, t1, t2);
  }

  lemma PrefixCancel(p: string, a: string, b: string)
    requires p + a == p + b
    ensures a == b
  {
    assert a == (p + a)[|p|..];
  }

  /** The number of consecutive digits of `x` from index `from` on. */
  function DigitRun(x: string, from: nat): nat
    requires from <= |x|
    decreases |x| - from
  {
    if from < |x| && IsDigit(x[from]) then 1 + DigitRun(x, from + 1) else 0
  }

  lemma {:induction false} DigitRunOf(d: string, t: string)
    requires AllDigits(d) && t != [] && !IsDigit(t[0])
    ensures DigitRun(d + t, 0) == |d|
  {
    if d != [] {
      DigitRunOf(d[1..], t);
      DigitRunShift(d + t);
      assert (d + t)[1..] == d[1..] + t;
    }
  }

  lemma {:induction false} DigitRunShift(x: string)
    requires x != [] && IsDigit(x[0])
    ensures DigitRun(x, 0) == 1 + DigitRun(x[1..], 0)
  {
    DigitRunSlide(x, 1);
  }

  lemma {:induction false} DigitRunSlide(x: string, from: nat)
    requires 1 <= from <= |x|
    ensures DigitRun(x, from) == DigitRun(x[1..], from - 1)
    decreases |x| - from
  {
    if from < |x| && IsDigit(x[from]) {
      DigitRunSlide(x, from + 1);
    }
  }

  /** A run of digits followed by a non-digit is determined by the string it begins. */
  lemma DigitRunsAgree(d1: string, t1: string, d2: string, t2: string)
    requires AllDigits(d1) && t1 != [] && !IsDigit(t1[0])
    requires AllDigits(d2) && t2 != [] && !IsDigit(t2[0])
    requires d1 + t1 == d2 + t2
    ensures d1 == d2 && t1 == t2
  {
    DigitRunOf(d1, t1);
    DigitRunOf(d2, t2);
    assert d1 == (d1 + t1)[..|d1|];
    assert t1 == (d1 + t1)[|d1|..];
  }

  /** The tail `_p{s}-{e}.pdf` determines `s` and `e`. */
  lemma PageSuffixInjective(s1: nat, e1: nat, s2: nat, e2: nat)
    requires PageSuffix(s1, e1) == PageSuffix(s2, e2)
    ensures s1 == s2 && e1 == e2
  {
    var t1, t2 := "-" + (NatToDecimal(e1) + ".pdf"), "-" + (NatToDecimal(e2) + ".pdf");
    PrefixCancel("_p", NatToDecimal(s1) + t1, NatToDecimal(s2) + t2);
    DigitRunsAgree(NatToDecimal(s1), t1, NatToDecimal(s2), t2);
    PrefixCancel("-", NatToDecimal(e1) + ".pdf", NatToDecimal(e2) + ".pdf");
    DigitRunsAgree(NatToDecimal(e1), ".pdf", NatToDecimal(e2), ".pdf");
  }

  /** Distinct pages-mode files have distinct names: the name gives back the file number and the pages. */
  lemma PartFileNameInjective(base: string, n1: nat, s1: nat, e1: nat, n2: nat, s2: nat, e2: nat)
    requires PartFileName(base, n1, s1, e1) == PartFileName(base, n2, s2, e2)
    ensures n1 == n2 && s1 == s2 && e1 == e2
  {
    PrefixCancel(base, "_part" + (FormatD(n1, 3) + PageSuffix(s1, e1)), "_part" + (FormatD(n2, 3) + PageSuffix(s2, e2)));
    PrefixCancel("_part", FormatD(n1, 3) + PageSuffix(s1, e1), FormatD(n2, 3) + PageSuffix(s2, e2));
    DigitRunsAgree(FormatD(n1, 3), PageSuffix(s1, e1), FormatD(n2, 3), PageSuffix(s2, e2));
    PageSuffixInjective(s1, e1, s2, e2);
  }

  /** Distinct range-mode files have distinct names: the name gives back the file number and the pages. */
  lemma RangeFileNameInjective(base: string, n1: nat, s1: nat, e1: nat, n2: nat, s2: nat, e2: nat)
    requires RangeFileName(base, n1, s1, e1) == RangeFileName(base, n2, s2, e2)
    ensures n1 == n2 && s1 == s2 && e1 == e2
  {
    PrefixCancel(base, "_range" + (FormatD(n1, 2) + PageSuffix(s1, e1)), "_range" + (FormatD(n2, 2) + PageSuffix(s2, e2)));
    PrefixCancel("_range", FormatD(n1, 2) + PageSuffix(s1, e1), FormatD(n2, 2) + PageSuffix(s2, e2));
    DigitRunsAgree(FormatD(n1, 2), PageSuffix(s1, e1), FormatD(n2, 2), PageSuffix(s2, e2));
    PageSuffixInjective(s1, e1, s2, e2);
  }

  // ---------------------------------------------------------------------------
  // Failures
  // ---------------------------------------------------------------------------

  /**
   * The failure message of a caught fault, by the first `catch` clause that
   * takes it: a fixed text when access is denied, otherwise a heading naming
   * the clause, then the fault's own text.
   */
  function FailureMessage(f: Fault): (m: string)
    ensures f.kind == AccessDenied ==> m == AccessDeniedMessage
    ensures f.kind != AccessDenied ==> |f.message| < |m| && m[|m| - |f.message|..] == f.message
  {
    match f.kind
    case PdfIo => "Errore PDF: " + f.message
    case AccessDenied => AccessDeniedMessage
    case Io => "Errore I/O: " + f.message
    case _ => "Errore inatteso: " + f.message
  }

  /** Which clause handles a fault kind: iText I/O, access denied, system I/O, or the general one. */
  function ClauseOf(kind: FaultKind): nat {
    match kind
    case PdfIo => 0
    case AccessDenied => 1
    case Io => 2
    case _ => 3
  }

  /** Faults taken by different clauses give different messages, whatever their own messages say. */
  lemma FailureMessagesDistinct(f: Fault, g: Fault)
    requires ClauseOf(f.kind) != ClauseOf(g.kind)
    ensures FailureMessage(f) != FailureMessage(g)
  {
    var m, n := FailureMessage(f), FailureMessage(g);
    if ClauseOf(f.kind) == 1 || ClauseOf(g.kind) == 1 {
      assert m[0] != n[0];
    } else {
      assert m[7] != n[7];
    }
  }

  // ---------------------------------------------------------------------------
  // SplitByPagesPerFile
  // ---------------------------------------------------------------------------

  /** Where the file of window `i` is written. */
  function PartPath(base: string, dir: string, k: nat, total: nat, i: nat): string {
    Combine(dir, PartName(base, k, total, i))
  }

  /** The file name of window `i`: file number `i + 1`, then its first and last page. */
  function PartName(base: string, k: nat, total: nat, i: nat): string {
    PartFileName(base, i + 1, WindowStart(i, k), WindowEnd(i, k, total))
  }

  /** What pages mode does for window `i`: write its pages to its file. */
  function PartWrite(src: seq<Page>, base: string, dir: string, k: nat, i: nat): Event
    requires k >= 1 && i < WindowCount(|src|, k)
  {
    WroteDocument(PartPath(base, dir, k, |src|, i), WindowPages(src, k, i))
  }

  /** The report after window `i`: `endPage / totalPages`. */
  function PartReport(total: nat, k: nat, i: nat): ToolProgress {
    ToolProgress(Some(Ratio(WindowEnd(i, k, total), total)), PagesExtracted(WindowStart(i, k), WindowEnd(i, k, total)))
  }

  /** `events` are the writes of the first `|events|` windows, in order. */
  ghost predicate PartsWritten(src: seq<Page>, k: nat, base: string, dir: string, events: seq<Event>)
    requires k >= 1
    decreases |events|
  {
    |events| <= WindowCount(|src|, k)
    && (events != [] ==>
          PartsWritten(src, k, base, dir, events[..|events| - 1])
          && events[|events| - 1] == PartWrite(src, base, dir, k, |events| - 1))
  }

  /** `progress` are the reports of the first `|progress|` windows, in order. */
  ghost predicate PartsReported(total: nat, k: nat, progress: seq<ToolProgress>)
    decreases |progress|
  {
    progress != [] ==>
      PartsReported(total, k, progress[..|progress| - 1])
      && progress[|progress| - 1] == PartReport(total, k, |progress| - 1)
  }

  /** The files of the first `n` windows were opened without a fault. */
  ghost predicate PartsOpened(base: string, dir: string, k: nat, total: nat, fs: FileSystem, n: nat) {
    n > 0 ==> PartsOpened(base, dir, k, total, fs, n - 1) && PartPath(base, dir, k, total, n - 1) !in fs.writeFaults
  }

  /** The first `|events|` windows are done: written, reported, and their files opened without a fault. */
  ghost predicate PagesDone(src: seq<Page>, k: nat, base: string, dir: string, fs: FileSystem,
                            events: seq<Event>, progress: seq<ToolProgress>)
    requires k >= 1
  {
    PartsWritten(src, k, base, dir, events)
    && |progress| == |events| && PartsReported(|src|, k, progress)
    && PartsOpened(base, dir, k, |src|, fs, |events|)
  }

  /** Event `i` is the write of window `i`. */
  lemma {:induction false} PartsWrittenAt(src: seq<Page>, k: nat, base: string, dir: string, events: seq<Event>, i: nat)
    requires k >= 1 && PartsWritten(src, k, base, dir, events) && i < |events|
    ensures i < WindowCount(|src|, k) && events[i] == PartWrite(src, base, dir, k, i)
  {
    if i < |events| - 1 {
      var shorter := events[..|events| - 1];
      PartsWrittenAt(src, k, base, dir, shorter, i);
      assert shorter[i] == events[i];
    }
  }

  /** Report `i` is the report of window `i`. */
  lemma {:induction false} PartsReportedAt(total: nat, k: nat, progress: seq<ToolProgress>, i: nat)
    requires PartsReported(total, k, progress) && i < |progress|
    ensures progress[i] == PartReport(total, k, i)
  {
    if i < |progress| - 1 {
      var shorter := progress[..|progress| - 1];
      PartsReportedAt(total, k, shorter, i);
      assert shorter[i] == progress[i];
    }
  }

  /** The file of window `i`, among the first `n`, was opened without a fault. */
  lemma {:induction false} PartsOpenedAt(base: string, dir: string, k: nat, total: nat, fs: FileSystem, n: nat, i: nat)
    requires PartsOpened(base, dir, k, total, fs, n) && i < n
    ensures PartPath(base, dir, k, total, i) !in fs.writeFaults
    decreases n
  {
    if i < n - 1 {
      PartsOpenedAt(base, dir, k, total, fs, n - 1, i);
    }
  }

  /** Handling one more window extends what is done by that window. */
  lemma PagesDoneStep(src: seq<Page>, k: nat, base: string, dir: string, fs: FileSystem,
                      events: seq<Event>, progress: seq<ToolProgress>)
    requires k >= 1 && PagesDone(src, k, base, dir, fs, events, progress)
    requires |events| < WindowCount(|src|, k)
    requires PartPath(base, dir, k, |src|, |events|) !in fs.writeFaults
    ensures PagesDone(src, k, base, dir, fs,
                      events + [PartWrite(src, base, dir, k, |events|)],
                      progress + [PartReport(|src|, k, |events|)])
  {
    assert (events + [PartWrite(src, base, dir, k, |events|)])[..|events|] == events;
    assert (progress + [PartReport(|src|, k, |events|)])[..|progress|] == progress;
  }

  /**
   * The contract of pages mode. The loop handles the windows in order; window
   * `i` first polls the token (poll `i + 1`), then opens its output file.
   * `events` and `progress` are those of the windows handled, and the outcome
   * says why the loop stopped: cancellation, a fault opening the next file, or
   * the end of the document.
   */
  ghost predicate PagesPhase(src: seq<Page>, k: nat, base: string, dir: string, fs: FileSystem,
                             token: CancellationToken, outcome: Outcome, events: seq<Event>, progress: seq<ToolProgress>)
    requires k >= 1
  {
    var total, done := |src|, |events|;
    PagesDone(src, k, base, dir, fs, events, progress)
    && !token.IsCancellationRequested(done)
    && match outcome
       case Cancelled =>
         done < WindowCount(total, k) && token.IsCancellationRequested(done + 1)
       case Completed(Failure(message)) =>
         done < WindowCount(total, k) && !token.IsCancellationRequested(done + 1)
         && PartPath(base, dir, k, total, done) in fs.writeFaults
         && message == FailureMessage(fs.writeFaults[PartPath(base, dir, k, total, done)])
       case Completed(Success(output)) =>
         done == WindowCount(total, k) && output == dir
  }

  /** Window `i + 1` starts `k` pages after window `i`, which ends `k - 1` pages after its start or at the last page. */
  lemma WindowAdvance(total: nat, k: nat, i: nat)
    ensures WindowStart(i + 1, k) == WindowStart(i, k) + k
    ensures WindowEnd(i, k, total) == Min(WindowStart(i, k) + k - 1, total)
  {
    assert (i + 1) * k == i * k + k;
  }

  /** The loop's `endPage` for window `i` is that window's last page. */
  lemma LoopEndPage(total: nat, k: nat, i: nat, startPage: nat, endPage: nat)
    requires startPage == WindowStart(i, k) && endPage == Min(startPage + k - 1, total)
    ensures endPage == WindowEnd(i, k, total)
  {
    WindowAdvance(total, k, i);
  }

  /** What the loop computes for window `i` from `startPage` is that window's path, write and report. */
  lemma WindowOfLoop(src: seq<Page>, k: nat, base: string, dir: string, i: nat, startPage: nat, endPage: nat)
    requires k >= 1 && i < WindowCount(|src|, k)
    requires startPage == WindowStart(i, k) && endPage == Min(startPage + k - 1, |src|)
    ensures 1 <= startPage <= endPage <= |src|
    ensures Combine(dir, PartFileName(base, i + 1, startPage, endPage)) == PartPath(base, dir, k, |src|, i)
    ensures WroteDocument(Combine(dir, PartFileName(base, i + 1, startPage, endPage)), src[startPage - 1..endPage])
      == PartWrite(src, base, dir, k, i)
    ensures ToolProgress(Some(Ratio(endPage, |src|)), PagesExtracted(startPage, endPage)) == PartReport(|src|, k, i)
  {
    LoopEndPage(|src|, k, i, startPage, endPage);
    WindowBounds(|src|, k, i);
  }

  /**
   * The body of the loop in `SplitByPagesPerFile`, once the token is polled:
   * the next window's file is opened (the fault, if any, is returned), written
   * and reported.
   */
  method WriteWindow(src: seq<Page>, k: nat, base: string, dir: string, fs: FileSystem,
                     startPage: nat, fileCount: nat, events: seq<Event>, progress: seq<ToolProgress>)
    returns (failure: Option<string>, events': seq<Event>, progress': seq<ToolProgress>)
    requires k >= 1 && PagesDone(src, k, base, dir, fs, events, progress)
    requires fileCount == |events| < WindowCount(|src|, k) && startPage == WindowStart(fileCount, k)
    ensures failure.Some? ==>
      events' == events && progress' == progress
      && PartPath(base, dir, k, |src|, fileCount) in fs.writeFaults
      && failure.value == FailureMessage(fs.writeFaults[PartPath(base, dir, k, |src|, fileCount)])
    ensures failure.None? ==>
      PagesDone(src, k, base, dir, fs, events', progress') && |events'| == fileCount + 1
  {
    var total := |src|;
    var endPage := Min(startPage + k - 1, total);
    WindowOfLoop(src, k, base, dir, fileCount, startPage, endPage);
    var path := Combine(dir, PartFileName(base, fileCount + 1, startPage, endPage));
    if path in fs.writeFaults {
      return Some(FailureMessage(fs.writeFaults[path])), events, progress;
    }
    var write := WroteDocument(path, src[startPage - 1..endPage]);
    var report := ToolProgress(Some(Ratio(endPage, total)), PagesExtracted(startPage, endPage));
    PagesDoneStep(src, k, base, dir, fs, events, progress);
    failure, events', progress' := None, events + [write], progress + [report];
  }

  /** `SplitByPagesPerFile`: one file per window, `startPage` advancing by `pagesPerFile`. */
  method SplitByPagesPerFile(src: seq<Page>, k: nat, base: string, dir: string, fs: FileSystem, token: CancellationToken)
    returns (outcome: Outcome, events: seq<Event>, progress: seq<ToolProgress>)
    requires k >= 1
    requires !token.IsCancellationRequested(0)
    ensures PagesPhase(src, k, base, dir, fs, token, outcome, events, progress)
  {
    var total := |src|;
    var fileCount := 0;
    var startPage := 1;
    events, progress := [], [];
    while startPage <= total
      invariant startPage == WindowStart(fileCount, k)
      invariant fileCount <= WindowCount(total, k) && |events| == fileCount
      invariant PagesDone(src, k, base, dir, fs, events, progress)
      invariant !token.IsCancellationRequested(fileCount)
      decreases WindowCount(total, k) - fileCount
    {
      WindowCountExact(total, k, fileCount);
      if token.IsCancellationRequested(fileCount + 1) {
        return Cancelled, events, progress;
      }
      var failure;
      failure, events, progress := WriteWindow(src, k, base, dir, fs, startPage, fileCount, events, progress);
      if failure.Some? {
        return Completed(Failure(failure.value)), events, progress;
      }
      WindowAdvance(total, k, fileCount);
      fileCount := fileCount + 1;
      startPage := startPage + k;
    }
    WindowCountExact(total, k, fileCount);
    outcome := Completed(Success(dir));
  }

  /** The documents the events write, in order. */
  function Written(events: seq<Event>): (docs: seq<seq<Page>>)
    ensures |docs| <= |events|
  {
    if events == [] then []
    else
      var last := events[|events| - 1];
      Written(events[..|events| - 1]) + (if last.WroteDocument? then [last.pages] else [])
  }

  /** The documents of the first `m` windows are the first `m` windows. */
  lemma {:induction false} PartsWrittenDocuments(src: seq<Page>, k: nat, base: string, dir: string, events: seq<Event>)
    requires k >= 1 && PartsWritten(src, k, base, dir, events)
    ensures Written(events) == FirstWindows(src, k, |events|)
  {
    if events != [] {
      PartsWrittenDocuments(src, k, base, dir, events[..|events| - 1]);
      FirstWindowsLast(src, k, |events|);
    }
  }

  /** A completed pages split wrote the whole document, in order, with nothing repeated. */
  lemma PagesRebuildDocument(src: seq<Page>, k: nat, base: string, dir: string, fs: FileSystem,
                             token: CancellationToken, outcome: Outcome, events: seq<Event>, progress: seq<ToolProgress>)
    requires k >= 1 && PagesPhase(src, k, base, dir, fs, token, outcome, events, progress)
    requires outcome.Completed? && outcome.result.Success?
    ensures Concat(Written(events)) == src
  {
    PartsWrittenDocuments(src, k, base, dir, events);
    WindowsRebuildDocument(src, k);
  }

  /** In pages mode every report is a percentage of the page count, and each one is strictly above the one before. */
  lemma PagesProgressMonotone(src: seq<Page>, k: nat, base: string, dir: string, fs: FileSystem,
                              events: seq<Event>, progress: seq<ToolProgress>)
    requires k >= 1 && PagesDone(src, k, base, dir, fs, events, progress)
    ensures MonotoneOver(progress, |src|)
    ensures forall i, j :: 0 <= i < j < |progress| ==>
      progress[i].percentage.value.done < progress[j].percentage.value.done
  {
    forall i | 0 <= i < |progress|
      ensures progress[i].percentage.Some? && progress[i].percentage.value.total == |src|
    {
      PartsReportedAt(|src|, k, progress, i);
    }
    forall i, j | 0 <= i < j < |progress|
      ensures progress[i].percentage.value.done < progress[j].percentage.value.done
    {
      PartsReportedAt(|src|, k, progress, i);
      PartsReportedAt(|src|, k, progress, j);
      PartsWrittenAt(src, k, base, dir, events, j);
      WindowsDisjoint(|src|, k, i, j);
      WindowBounds(|src|, k, j);
    }
  }

  /** A completed pages split of a non-empty document ends with a report of 100%. */
  lemma PagesProgressCompletes(src: seq<Page>, k: nat, base: string, dir: string, fs: FileSystem,
                               token: CancellationToken, outcome: Outcome, events: seq<Event>, progress: seq<ToolProgress>)
    requires k >= 1 && PagesPhase(src, k, base, dir, fs, token, outcome, events, progress)
    requires outcome.Completed? && outcome.result.Success? && |src| > 0
    ensures EndsComplete(progress)
  {
    WindowsSpanDocument(|src|, k);
    PartsReportedAt(|src|, k, progress, |progress| - 1);
  }

  /**
   * A base name that starts with a drive designator (from an input such as
   * `C:\docs\a:s.pdf`) makes every part name rooted, so `Path.Combine`
   * drops the output directory and the part is written at its bare name.
   */
  lemma DriveBaseEscapesDirectory(base: string, dir: string, k: nat, total: nat, i: nat)
    requires DriveLength(base) == 2
    ensures PartPath(base, dir, k, total, i) == PartName(base, k, total, i)
  {
    var name := PartName(base, k, total, i);
    assert name[..2] == base[..2];
    assert DriveLength(name) == 2;
  }

  /** Under one directory, the same pages-mode path means the same file name. */
  lemma PartPathNames(base: string, dir: string, k: nat, total: nat, i: nat, j: nat)
    requires PartPath(base, dir, k, total, i) == PartPath(base, dir, k, total, j)
    ensures PartName(base, k, total, i) == PartName(base, k, total, j)
  {
    PartNamesRootedTogether(base, i + 1, WindowStart(i, k), WindowEnd(i, k, total), j + 1, WindowStart(j, k), WindowEnd(j, k, total));
    CombineInjective(dir, PartName(base, k, total, i), PartName(base, k, total, j));
  }

  /** A pages-mode file name gives back its file number. */
  lemma PartNameNumber(base: string, k: nat, total: nat, i: nat, j: nat)
    requires PartName(base, k, total, i) == PartName(base, k, total, j)
    ensures i + 1 == j + 1
  {
    PartFileNameInjective(base, i + 1, WindowStart(i, k), WindowEnd(i, k, total), j + 1, WindowStart(j, k), WindowEnd(j, k, total));
  }

  /** In pages mode no two windows share an output file. */
  lemma PartPathsDistinct(base: string, dir: string, k: nat, total: nat, i: nat, j: nat)
    requires PartPath(base, dir, k, total, i) == PartPath(base, dir, k, total, j)
    ensures i == j
  {
    PartPathNames(base, dir, k, total, i, j);
    PartNameNumber(base, k, total, i, j);
  }

  // ---------------------------------------------------------------------------
  // Range mode
  // ---------------------------------------------------------------------------

  /** The range is used, not skipped: it starts at page 1 or later, ends by the last page, and is not reversed. */
  predicate ValidRange(r: Range, total: nat) {
    !(r.0 < 1 || r.1 > total || r.0 > r.1)
  }

  /** How many of `ranges` are valid. */
  function CountValid(ranges: seq<Range>, total: nat): (c: nat)
    ensures c <= |ranges|
  {
    if ranges == [] then 0
    else CountValid(ranges[..|ranges| - 1], total) + (if ValidRange(ranges[|ranges| - 1], total) then 1 else 0)
  }

  /** Looking at one more range counts it when it is valid. */
  lemma CountValidStep(ranges: seq<Range>, total: nat, i: nat)
    requires i < |ranges|
    ensures CountValid(ranges[..i + 1], total) == CountValid(ranges[..i], total) + (if ValidRange(ranges[i], total) then 1 else 0)
  {
    assert ranges[..i + 1][..i] == ranges[..i];
  }

  /** Valid ranges get increasing file numbers. */
  lemma {:induction false} CountValidIncreases(ranges: seq<Range>, total: nat, i: nat, j: nat)
    requires i < j <= |ranges| && ValidRange(ranges[i], total)
    ensures CountValid(ranges[..i], total) < CountValid(ranges[..j], total)
    decreases j
  {
    CountValidStep(ranges, total, j - 1);
    if i < j - 1 {
      CountValidIncreases(ranges, total, i, j - 1);
    }
  }

  /** All ranges are counted exactly when every one is valid. */
  lemma {:induction false} CountValidAll(ranges: seq<Range>, total: nat)
    ensures CountValid(ranges, total) == |ranges| <==> forall i :: 0 <= i < |ranges| ==> ValidRange(ranges[i], total)
  {
    if ranges != [] {
      var shorter := ranges[..|ranges| - 1];
      CountValidAll(shorter, total);
      assert forall i :: 0 <= i < |shorter| ==> shorter[i] == ranges[i];
    }
  }

  /** The file name of the valid range at position `i`; its number counts the valid ranges up to it. */
  function RangeName(base: string, ranges: seq<Range>, total: nat, i: nat): string
    requires i < |ranges| && ValidRange(ranges[i], total)
  {
    RangeFileName(base, CountValid(ranges[..i], total) + 1, ranges[i].0 as nat, ranges[i].1 as nat)
  }

  /** Where the file of the valid range at position `i` is written. */
  function RangePath(base: string, dir: string, ranges: seq<Range>, total: nat, i: nat): string
    requires i < |ranges| && ValidRange(ranges[i], total)
  {
    Combine(dir, RangeName(base, ranges, total, i))
  }

  /** What range mode does with the range at position `i`: write its pages, or skip it. */
  function RangeEvent(src: seq<Page>, base: string, dir: string, ranges: seq<Range>, i: nat): Event
    requires i < |ranges|
  {
    var (s, e) := ranges[i];
    if ValidRange(ranges[i], |src|) then WroteDocument(RangePath(base, dir, ranges, |src|, i), src[s - 1..e])
    else SkippedRange(s, e)
  }

  /** The report after the `c`-th file of range mode: `c / ranges.Count`. */
  function RangeReport(c: nat, rangeCount: nat): ToolProgress {
    ToolProgress(Some(Ratio(c, rangeCount)), RangeExtracted(c, rangeCount))
  }

  /** `events` handle the first `|events|` ranges, in order. */
  ghost predicate RangesHandled(src: seq<Page>, base: string, dir: string, ranges: seq<Range>, events: seq<Event>)
    decreases |events|
  {
    |events| <= |ranges|
    && (events != [] ==>
          RangesHandled(src, base, dir, ranges, events[..|events| - 1])
          && events[|events| - 1] == RangeEvent(src, base, dir, ranges, |events| - 1))
  }

  /** `progress` holds one report per file written, numbered from 1. */
  ghost predicate RangesReported(rangeCount: nat, progress: seq<ToolProgress>)
    decreases |progress|
  {
    progress != [] ==>
      RangesReported(rangeCount, progress[..|progress| - 1])
      && progress[|progress| - 1] == RangeReport(|progress|, rangeCount)
  }

  /** The files of the valid ranges among the first `m` were opened without a fault. */
  ghost predicate RangesOpened(base: string, dir: string, ranges: seq<Range>, total: nat, fs: FileSystem, m: nat)
    requires m <= |ranges|
  {
    m > 0 ==>
      RangesOpened(base, dir, ranges, total, fs, m - 1)
      && (ValidRange(ranges[m - 1], total) ==> RangePath(base, dir, ranges, total, m - 1) !in fs.writeFaults)
  }

  /** The first `|events|` ranges are done. */
  ghost predicate RangesDone(src: seq<Page>, base: string, dir: string, fs: FileSystem, ranges: seq<Range>,
                             events: seq<Event>, progress: seq<ToolProgress>)
  {
    RangesHandled(src, base, dir, ranges, events)
    && |progress| == CountValid(ranges[..|events|], |src|)
    && RangesReported(|ranges|, progress)
    && RangesOpened(base, dir, ranges, |src|, fs, |events|)
  }

  /** Event `i` is what range mode does with range `i`. */
  lemma {:induction false} RangesHandledAt(src: seq<Page>, base: string, dir: string, ranges: seq<Range>, events: seq<Event>, i: nat)
    requires RangesHandled(src, base, dir, ranges, events) && i < |events|
    ensures i < |ranges| && events[i] == RangeEvent(src, base, dir, ranges, i)
  {
    if i < |events| - 1 {
      var shorter := events[..|events| - 1];
      RangesHandledAt(src, base, dir, ranges, shorter, i);
      assert shorter[i] == events[i];
    }
  }

  /** Report `c` is the report of file number `c + 1`. */
  lemma {:induction false} RangesReportedAt(rangeCount: nat, progress: seq<ToolProgress>, c: nat)
    requires RangesReported(rangeCount, progress) && c < |progress|
    ensures progress[c] == RangeReport(c + 1, rangeCount)
  {
    if c < |progress| - 1 {
      var shorter := progress[..|progress| - 1];
      RangesReportedAt(rangeCount, shorter, c);
      assert shorter[c] == progress[c];
    }
  }

  /** Handling the next range extends the handled prefix by its event. */
  lemma RangesHandledStep(src: seq<Page>, base: string, dir: string, ranges: seq<Range>, events: seq<Event>, event: Event)
    requires RangesHandled(src, base, dir, ranges, events) && |events| < |ranges|
    requires event == RangeEvent(src, base, dir, ranges, |events|)
    ensures RangesHandled(src, base, dir, ranges, events + [event])
  {
    assert (events + [event])[..|events|] == events;
  }

  /** Writing the next file extends the reports by that file's report. */
  lemma RangesReportedStep(rangeCount: nat, progress: seq<ToolProgress>, report: ToolProgress)
    requires RangesReported(rangeCount, progress) && report == RangeReport(|progress| + 1, rangeCount)
    ensures RangesReported(rangeCount, progress + [report])
  {
    assert (progress + [report])[..|progress|] == progress;
  }

  /** One more range looked at: the file count grows by one exactly when the range is valid. */
  lemma RangesCountStep(ranges: seq<Range>, total: nat, events: seq<Event>, event: Event, progress: seq<ToolProgress>, grown: seq<ToolProgress>)
    requires |events| < |ranges| && |progress| == CountValid(ranges[..|events|], total)
    requires |grown| == |progress| + (if ValidRange(ranges[|events|], total) then 1 else 0)
    ensures |grown| == CountValid(ranges[..|events + [event]|], total)
  {
    CountValidStep(ranges, total, |events|);
    assert |events + [event]| == |events| + 1;
  }

  /** One more range looked at: its file, if it has one, opened without a fault. */
  lemma RangesOpenedStep(base: string, dir: string, ranges: seq<Range>, total: nat, fs: FileSystem, m: nat)
    requires m < |ranges| && RangesOpened(base, dir, ranges, total, fs, m)
    requires ValidRange(ranges[m], total) ==> RangePath(base, dir, ranges, total, m) !in fs.writeFaults
    ensures RangesOpened(base, dir, ranges, total, fs, m + 1)
  {
  }

  /** An invalid range is skipped: a note, no file and no report. */
  lemma RangesDoneSkip(src: seq<Page>, base: string, dir: string, fs: FileSystem, ranges: seq<Range>,
                       events: seq<Event>, progress: seq<ToolProgress>, event: Event)
    requires RangesDone(src, base, dir, fs, ranges, events, progress)
    requires |events| < |ranges| && !ValidRange(ranges[|events|], |src|)
    requires event == RangeEvent(src, base, dir, ranges, |events|)
    ensures RangesDone(src, base, dir, fs, ranges, events + [event], progress)
  {
    RangesHandledStep(src, base, dir, ranges, events, event);
    RangesCountStep(ranges, |src|, events, event, progress, progress);
    RangesOpenedStep(base, dir, ranges, |src|, fs, |events|);
  }

  /** A valid range whose file opens is written and reported. */
  lemma RangesDoneWrite(src: seq<Page>, base: string, dir: string, fs: FileSystem, ranges: seq<Range>,
                        events: seq<Event>, progress: seq<ToolProgress>, event: Event, report: ToolProgress)
    requires RangesDone(src, base, dir, fs, ranges, events, progress)
    requires |events| < |ranges| && ValidRange(ranges[|events|], |src|)
    requires RangePath(base, dir, ranges, |src|, |events|) !in fs.writeFaults
    requires event == RangeEvent(src, base, dir, ranges, |events|)
    requires report == RangeReport(|progress| + 1, |ranges|)
    ensures RangesDone(src, base, dir, fs, ranges, events + [event], progress + [report])
  {
    RangesHandledStep(src, base, dir, ranges, events, event);
    RangesReportedStep(|ranges|, progress, report);
    RangesCountStep(ranges, |src|, events, event, progress, progress + [report]);
    RangesOpenedStep(base, dir, ranges, |src|, fs, |events|);
  }

  /**
   * The contract of range mode over the parsed `ranges`. Range `i` first
   * polls the token (poll `i + 1`); an invalid one is skipped; a valid one
   * opens its output file. The outcome says why the loop stopped.
   */
  ghost predicate RangesPhase(src: seq<Page>, base: string, dir: string, fs: FileSystem, ranges: seq<Range>,
                              token: CancellationToken, outcome: Outcome, events: seq<Event>, progress: seq<ToolProgress>)
  {
    var done := |events|;
    RangesDone(src, base, dir, fs, ranges, events, progress)
    && !token.IsCancellationRequested(done)
    && match outcome
       case Cancelled =>
         done < |ranges| && token.IsCancellationRequested(done + 1)
       case Completed(Failure(message)) =>
         done < |ranges| && !token.IsCancellationRequested(done + 1)
         && ValidRange(ranges[done], |src|)
         && RangePath(base, dir, ranges, |src|, done) in fs.writeFaults
         && message == FailureMessage(fs.writeFaults[RangePath(base, dir, ranges, |src|, done)])
       case Completed(Success(output)) =>
         done == |ranges| && output == dir
  }

  /**
   * The body of the `foreach` of `SplitByRanges` after the poll, for the range
   * at position `|events|`: skip it if invalid; otherwise number it, open its
   * file (which may fail), copy its pages and report.
   */
  method HandleRange(src: seq<Page>, base: string, dir: string, fs: FileSystem, ranges: seq<Range>,
                      fileCount: nat, events: seq<Event>, progress: seq<ToolProgress>)
    returns (failure: Option<string>, fileCount': nat, events': seq<Event>, progress': seq<ToolProgress>)
    requires RangesDone(src, base, dir, fs, ranges, events, progress)
    requires |events| < |ranges| && fileCount == |progress|
    ensures failure.Some? ==>
      events' == events && progress' == progress
      && ValidRange(ranges[|events|], |src|)
      && RangePath(base, dir, ranges, |src|, |events|) in fs.writeFaults
      && failure.value == FailureMessage(fs.writeFaults[RangePath(base, dir, ranges, |src|, |events|)])
    ensures failure.None? ==>
      RangesDone(src, base, dir, fs, ranges, events', progress')
      && |events'| == |events| + 1 && fileCount' == |progress'|
  {
    var total := |src|;
    var (startPage, endPage) := ranges[|events|];
    if startPage < 1 || endPage > total || startPage > endPage {
      var skip := SkippedRange(startPage, endPage);
      RangesDoneSkip(src, base, dir, fs, ranges, events, progress, skip);
      return None, fileCount, events + [skip], progress;
    }
    fileCount' := fileCount + 1;
    var path := Combine(dir, RangeFileName(base, fileCount', startPage, endPage));
    assert path == RangePath(base, dir, ranges, total, |events|);
    if path in fs.writeFaults {
      return Some(FailureMessage(fs.writeFaults[path])), fileCount', events, progress;
    }
    var write := WroteDocument(path, src[startPage - 1..endPage]);
    var report := ToolProgress(Some(Ratio(fileCount', |ranges|)), RangeExtracted(fileCount', |ranges|));
    assert write == RangeEvent(src, base, dir, ranges, |events|);
    RangesDoneWrite(src, base, dir, fs, ranges, events, progress, write, report);
    failure, events', progress' := None, events + [write], progress + [report];
  }

  /** `SplitByRanges`: one file per valid range, numbered in order; invalid ranges are skipped. */
  method SplitByRanges(src: seq<Page>, rangeStr: string, base: string, dir: string, fs: FileSystem, token: CancellationToken)
    returns (outcome: Outcome, events: seq<Event>, progress: seq<ToolProgress>)
    requires !token.IsCancellationRequested(0)
    ensures RangesPhase(src, base, dir, fs, RangeList(rangeStr), token, outcome, events, progress)
  {
    var ranges := ParseRanges(rangeStr);
    outcome, events, progress := ForEachRange(src, ranges, base, dir, fs, token);
  }

  /** The `foreach` over the parsed ranges of `SplitByRanges`. */
  method ForEachRange(src: seq<Page>, ranges: seq<Range>, base: string, dir: string, fs: FileSystem, token: CancellationToken)
    returns (outcome: Outcome, events: seq<Event>, progress: seq<ToolProgress>)
    requires !token.IsCancellationRequested(0)
    ensures RangesPhase(src, base, dir, fs, ranges, token, outcome, events, progress)
  {
    var fileCount := 0;
    var i := 0;
    events, progress := [], [];
    while i < |ranges|
      invariant |events| == i && fileCount == |progress|
      invariant RangesDone(src, base, dir, fs, ranges, events, progress)
      invariant !token.IsCancellationRequested(i)
      decreases |ranges| - i
    {
      if token.IsCancellationRequested(i + 1) {
        return Cancelled, events, progress;
      }
      var failure;
      failure, fileCount, events, progress := HandleRange(src, base, dir, fs, ranges, fileCount, events, progress);
      if failure.Some? {
        return Completed(Failure(failure.value)), events, progress;
      }
      i := i + 1;
    }
    assert ranges[..i] == ranges;
    outcome := Completed(Success(dir));
  }

  /**
   * In range mode every report is a percentage of the number of ranges: the
   * report after the `c`-th file (from 0) reads `(c + 1) / |ranges|`, so the
   * percentages strictly increase.
   */
  lemma RangesProgressMonotone(src: seq<Page>, base: string, dir: string, fs: FileSystem, ranges: seq<Range>,
                               events: seq<Event>, progress: seq<ToolProgress>)
    requires RangesDone(src, base, dir, fs, ranges, events, progress)
    ensures MonotoneOver(progress, |ranges|)
    ensures forall c :: 0 <= c < |progress| ==> progress[c].percentage.value.done == c + 1
    ensures forall c, d :: 0 <= c < d < |progress| ==>
      progress[c].percentage.value.done < progress[d].percentage.value.done
  {
    forall c | 0 <= c < |progress|
      ensures progress[c].percentage.Some? && progress[c].percentage.value.total == |ranges|
      ensures progress[c].percentage.value.done == c + 1
    {
      RangesReportedAt(|ranges|, progress, c);
    }
    forall c, d | 0 <= c < d < |progress|
      ensures progress[c].percentage.value.done < progress[d].percentage.value.done
    {
      RangesReportedAt(|ranges|, progress, c);
      RangesReportedAt(|ranges|, progress, d);
    }
  }

  /** A completed range split ends at 100% exactly when there were ranges and every one was valid. */
  lemma RangesProgressCompletes(src: seq<Page>, base: string, dir: string, fs: FileSystem, ranges: seq<Range>,
                                token: CancellationToken, outcome: Outcome, events: seq<Event>, progress: seq<ToolProgress>)
    requires RangesPhase(src, base, dir, fs, ranges, token, outcome, events, progress)
    requires outcome.Completed? && outcome.result.Success?
    ensures EndsComplete(progress) <==> |ranges| > 0 && forall i :: 0 <= i < |ranges| ==> ValidRange(ranges[i], |src|)
  {
    assert ranges[..|events|] == ranges;
    CountValidAll(ranges, |src|);
    if progress != [] {
      RangesReportedAt(|ranges|, progress, |progress| - 1);
    }
  }

  /** Under one directory, the same range-mode path means the same file name. */
  lemma RangePathNames(base: string, dir: string, ranges: seq<Range>, total: nat, i: nat, j: nat)
    requires i < |ranges| && ValidRange(ranges[i], total) && j < |ranges| && ValidRange(ranges[j], total)
    requires RangePath(base, dir, ranges, total, i) == RangePath(base, dir, ranges, total, j)
    ensures RangeName(base, ranges, total, i) == RangeName(base, ranges, total, j)
  {
    RangeNamesRootedTogether(base, CountValid(ranges[..i], total) + 1, ranges[i].0 as nat, ranges[i].1 as nat,
                             CountValid(ranges[..j], total) + 1, ranges[j].0 as nat, ranges[j].1 as nat);
    CombineInjective(dir, RangeName(base, ranges, total, i), RangeName(base, ranges, total, j));
  }

  /** A range-mode file name gives back its file number. */
  lemma RangeFileNumber(base: string, n1: nat, s1: nat, e1: nat, n2: nat, s2: nat, e2: nat)
    requires RangeFileName(base, n1, s1, e1) == RangeFileName(base, n2, s2, e2)
    ensures n1 == n2
  {
    RangeFileNameInjective(base, n1, s1, e1, n2, s2, e2);
  }

  /** Two valid ranges with the same number of valid ranges before them are the same range. */
  lemma CountValidInjective(ranges: seq<Range>, total: nat, i: nat, j: nat)
    requires i < |ranges| && ValidRange(ranges[i], total) && j < |ranges| && ValidRange(ranges[j], total)
    requires CountValid(ranges[..i], total) == CountValid(ranges[..j], total)
    ensures i == j
  {
    if i < j {
      CountValidIncreases(ranges, total, i, j);
    } else if j < i {
      CountValidIncreases(ranges, total, j, i);
    }
  }

  /** In range mode no two valid ranges share an output file, even when they cover the same pages. */
  lemma RangePathsDistinct(base: string, dir: string, ranges: seq<Range>, total: nat, i: nat, j: nat)
    requires i < |ranges| && ValidRange(ranges[i], total) && j < |ranges| && ValidRange(ranges[j], total)
    requires RangePath(base, dir, ranges, total, i) == RangePath(base, dir, ranges, total, j)
    ensures i == j
  {
    RangePathNames(base, dir, ranges, total, i, j);
    RangeFileNumber(base, CountValid(ranges[..i], total) + 1, ranges[i].0 as nat, ranges[i].1 as nat,
                          CountValid(ranges[..j], total) + 1, ranges[j].0 as nat, ranges[j].1 as nat);
    CountValidInjective(ranges, total, i, j);
  }

  // ---------------------------------------------------------------------------
  // RunAsync
  // ---------------------------------------------------------------------------

  /** The run got past validation: the input is named and exists, and the output directory is named. */
  predicate Accepted(context: ToolContext, fs: FileSystem) {
    !IsNullOrWhiteSpace(context.inputFilePath) && context.inputFilePath.value in fs.files
    && !IsNullOrWhiteSpace(context.outputFilePath)
  }

  /** Range mode is taken only for the exact mode "range" with a non-blank range string; anything else is pages mode. */
  predicate UsesRanges(parameters: Option<map<string, ParamValue>>) {
    OrDefault(StringParameter(parameters, "mode"), "pages") == "range"
    && !IsNullOrWhiteSpace(StringParameter(parameters, "range"))
  }

  /** The `pagesPerFile` parameter, "1" when absent. */
  function PagesPerFileOf(parameters: Option<map<string, ParamValue>>): (k: nat)
    ensures k >= 1
  {
    PagesPerFile(OrDefault(StringParameter(parameters, "pagesPerFile"), "1"))
  }

  /** What the mode chosen by the parameters does with the opened document `src`. */
  ghost predicate SplitPhase(src: seq<Page>, parameters: Option<map<string, ParamValue>>, base: string, dir: string,
                             fs: FileSystem, token: CancellationToken,
                             outcome: Outcome, events: seq<Event>, progress: seq<ToolProgress>)
  {
    if UsesRanges(parameters) then
      RangesPhase(src, base, dir, fs, RangeList(StringParameter(parameters, "range").value), token, outcome, events, progress)
    else
      PagesPhase(src, PagesPerFileOf(parameters), base, dir, fs, token, outcome, events, progress)
  }

  /** The body of the `Task.Run` after the document is open: dispatch on the mode. */
  method SplitDocument(src: seq<Page>, parameters: Option<map<string, ParamValue>>, base: string, dir: string,
                       fs: FileSystem, token: CancellationToken)
    returns (outcome: Outcome, events: seq<Event>, progress: seq<ToolProgress>)
    requires !token.IsCancellationRequested(0)
    ensures SplitPhase(src, parameters, base, dir, fs, token, outcome, events, progress)
  {
    var mode := OrDefault(StringParameter(parameters, "mode"), "pages");
    var rangeStr := StringParameter(parameters, "range");
    if mode == "range" && !IsNullOrWhiteSpace(rangeStr) {
      outcome, events, progress := SplitByRanges(src, rangeStr.value, base, dir, fs, token);
    } else {
      outcome, events, progress := SplitByPagesPerFile(src, PagesPerFileOf(parameters), base, dir, fs, token);
    }
  }

  /**
   * `RunAsync`. The output directory is created first (a fault there is
   * caught like any other); poll 0 of the token is the start of `Task.Run`;
   * then the source document is opened and split by the chosen mode. Files
   * written before a cancellation or a fault stay written.
   */
  method Run(context: ToolContext, fs: FileSystem) returns (run: ToolRun)
    ensures IsNullOrWhiteSpace(context.inputFilePath) ==> run == Rejected(MissingInputMessage)
    ensures !IsNullOrWhiteSpace(context.inputFilePath) && context.inputFilePath.value !in fs.files ==>
      run == Rejected(NotFoundMessage)
    ensures (!IsNullOrWhiteSpace(context.inputFilePath) && context.inputFilePath.value in fs.files
             && IsNullOrWhiteSpace(context.outputFilePath)) ==> run == Rejected(MissingOutputMessage)
    ensures Accepted(context, fs) && context.outputFilePath.value in fs.writeFaults ==>
      run == Rejected(FailureMessage(fs.writeFaults[context.outputFilePath.value]))
    ensures Accepted(context, fs) && context.outputFilePath.value !in fs.writeFaults ==>
      var dir := context.outputFilePath.value;
      var token := context.cancellationToken;
      var doc := OpenDocument(fs.files[context.inputFilePath.value]);
      |run.events| >= 1 && run.events[0] == CreatedDirectory(dir)
      && (token.IsCancellationRequested(0) ==> run == ToolRun(Cancelled, [CreatedDirectory(dir)], []))
      && (!token.IsCancellationRequested(0) && doc.Err? ==>
            run == ToolRun(Completed(Failure(FailureMessage(doc.error))), [CreatedDirectory(dir)], []))
      && (!token.IsCancellationRequested(0) && doc.Ok? ==>
            SplitPhase(doc.value, context.parameters, GetFileNameWithoutExtension(context.inputFilePath.value),
                       dir, fs, token, run.outcome, run.events[1..], run.progress))
  {
    if IsNullOrWhiteSpace(context.inputFilePath) {
      return Rejected(MissingInputMessage);
    }
    var input := context.inputFilePath.value;
    if input !in fs.files {
      return Rejected(NotFoundMessage);
    }
    if IsNullOrWhiteSpace(context.outputFilePath) {
      return Rejected(MissingOutputMessage);
    }
    var dir := context.outputFilePath.value;
    if dir in fs.writeFaults {
      return Rejected(FailureMessage(fs.writeFaults[dir]));
    }
    var created := [CreatedDirectory(dir)];
    var token := context.cancellationToken;
    if token.IsCancellationRequested(0) {
      return ToolRun(Cancelled, created, []);
    }
    var doc := OpenDocument(fs.files[input]);
    if doc.Err? {
      return ToolRun(Completed(Failure(FailureMessage(doc.error))), created, []);
    }
    var outcome, events, progress := SplitDocument(doc.value, context.parameters,
                                                   GetFileNameWithoutExtension(input), dir, fs, token);
    run := ToolRun(outcome, created + events, progress);
    assert run.events[1..] == events;
  }
}
