/**
 * The .NET string primitives the tools rely on: white space, `Trim`,
 * `Split`, `Int32.TryParse`, integer formatting and `Convert.ToHexString`.
 * Strings are sequences of UTF-16 code units, modelled as `seq<char>`.
 */
module Text {
  import opened Values

  // ---------------------------------------------------------------------------
  // White space and trimming
  // ---------------------------------------------------------------------------

  /** `char.IsWhiteSpace`: the set `String.Trim` and `String.IsNullOrWhiteSpace` use. */
  predicate IsWhiteSpace(c: char) {
    c == ' ' || ('\t' <= c <= '\r') || c == '\U{0085}' || c == '\U{00A0}' || c == '\U{1680}'
    || ('\U{2000}' <= c <= '\U{200A}') || c == '\U{2028}' || c == '\U{2029}'
    || c == '\U{202F}' || c == '\U{205F}' || c == '\U{3000}'
  }

  /** The white space `Int32.TryParse` skips (`NumberStyles.AllowLeadingWhite | AllowTrailingWhite`). */
  predicate IsNumberWhite(c: char) {
    c == ' ' || ('\t' <= c <= '\r')
  }

  /** Which white-space set a trim uses. */
  datatype WhiteSet = Unicode | Number

  predicate IsWhite(w: WhiteSet, c: char) {
    match w
    case Unicode => IsWhiteSpace(c)
    case Number => IsNumberWhite(c)
  }

  predicate AllWhite(w: WhiteSet, s: string) {
    forall i :: 0 <= i < |s| ==> IsWhite(w, s[i])
  }

  /** `String.IsNullOrWhiteSpace`. */
  predicate IsNullOrWhiteSpace(s: Option<string>) {
    s.None? || AllWhite(Unicode, s.value)
  }

  /** How many characters at the start of `s` belong to the set `w`. */
  function LeadingWhite(s: string, w: WhiteSet): (n: nat)
    ensures n <= |s|
    ensures forall i :: 0 <= i < n ==> IsWhite(w, s[i])
    ensures n < |s| ==> !IsWhite(w, s[n])
  {
    if s == [] || !IsWhite(w, s[0]) then 0 else 1 + LeadingWhite(s[1..], w)
  }

  /** How many characters at the end of `s` belong to the set `w`. */
  function TrailingWhite(s: string, w: WhiteSet): (n: nat)
    ensures n <= |s|
    ensures forall i :: |s| - n <= i < |s| ==> IsWhite(w, s[i])
    ensures n < |s| ==> !IsWhite(w, s[|s| - n - 1])
  {
    if s == [] || !IsWhite(w, s[|s| - 1]) then 0 else 1 + TrailingWhite(s[..|s| - 1], w)
  }

  /** Drops leading and trailing characters of the set `w`: the result is what lies between. */
  function TrimWith(s: string, w: WhiteSet): (r: string)
    ensures var lead := LeadingWhite(s, w);
      lead + |r| <= |s| && r == s[lead..lead + |r|]
      && (forall i :: lead + |r| <= i < |s| ==> IsWhite(w, s[i]))
    ensures r != [] ==> !IsWhite(w, r[0]) && !IsWhite(w, r[|r| - 1])
    ensures r == [] <==> AllWhite(w, s)
  {
    var lead := LeadingWhite(s, w);
    if lead == |s| then []
    else
      var trail := TrailingWhite(s, w);
      assert lead < |s| - trail by {
        assert !IsWhite(w, s[lead]);
      }
      s[lead..|s| - trail]
  }

  /** `String.Trim()`. */
  function Trim(s: string): string {
    TrimWith(s, Unicode)
  }

  /** Trimming only removes characters: a character absent from `s` is absent from its trim. */
  lemma TrimAddsNothing(s: string, w: WhiteSet, c: char)
    requires c !in s
    ensures c !in TrimWith(s, w)
  {
    var r := TrimWith(s, w);
    var lead := LeadingWhite(s, w);
    forall i | 0 <= i < |r| ensures r[i] != c {
      assert r[i] == s[lead + i];
    }
  }

  /** White space `w` in front of text that does not start with white space is exactly what `LeadingWhite` skips. */
  lemma {:induction false} LeadingWhitePrefix(w: string, s: string, ws: WhiteSet)
    requires AllWhite(ws, w)
    requires s == [] || !IsWhite(ws, s[0])
    ensures LeadingWhite(w + s, ws) == |w|
    decreases |w|
  {
    if w != [] {
      assert (w + s)[1..] == w[1..] + s;
      LeadingWhitePrefix(w[1..], s, ws);
    }
  }

  /** White space `w` after text that does not end with white space is exactly what `TrailingWhite` counts. */
  lemma {:induction false} TrailingWhiteSuffix(s: string, w: string, ws: WhiteSet)
    requires AllWhite(ws, w)
    requires s == [] || !IsWhite(ws, s[|s| - 1])
    ensures TrailingWhite(s + w, ws) == |w|
    decreases |w|
  {
    if w != [] {
      assert (s + w)[..|s + w| - 1] == s + w[..|w| - 1];
      TrailingWhiteSuffix(s, w[..|w| - 1], ws);
    }
  }

  /** Trimming white space added around text with no white space at its ends gives that text back. */
  lemma TrimAround(before: string, s: string, after: string)
    requires AllWhite(Unicode, before) && AllWhite(Unicode, after)
    requires s != [] && !IsWhiteSpace(s[0]) && !IsWhiteSpace(s[|s| - 1])
    ensures LeadingWhite(before + s + after, Unicode) == |before|
    ensures Trim(before + s + after) == s
  {
    var t := before + s + after;
    assert t == before + (s + after) && t == (before + s) + after;
    LeadingWhitePrefix(before, s + after, Unicode);
    TrailingWhiteSuffix(before + s, after, Unicode);
    assert t[|before|..|t| - |after|] == s;
  }

  /**
   * `TrimStart` and `Trim` agree on the first character: what remains after
   * the leading white space is empty exactly when the trim is, and otherwise
   * starts with the trim's first character.
   */
  lemma TrimStartHead(s: string)
    ensures var v := s[LeadingWhite(s, Unicode)..];
      (v == [] <==> Trim(s) == []) && (v != [] ==> v[0] == Trim(s)[0])
  {
    var lead := LeadingWhite(s, Unicode);
    if lead < |s| {
      assert !AllWhite(Unicode, s) by {
        assert !IsWhite(Unicode, s[lead]);
      }
      assert Trim(s)[0] == s[lead];
    } else {
      assert AllWhite(Unicode, s);
    }
  }

  /** A string with no white space at either end is its own trim. */
  lemma TrimUntouched(s: string)
    requires s == [] || (!IsWhiteSpace(s[0]) && !IsWhiteSpace(s[|s| - 1]))
    ensures Trim(s) == s
  {
  }

  // ---------------------------------------------------------------------------
  // Split and Join
  // ---------------------------------------------------------------------------

  /** Number of occurrences of `c` in `s`. */
  function Count(s: string, c: char): nat {
    if s == [] then 0 else (if s[0] == c then 1 else 0) + Count(s[1..], c)
  }

  /**
   * `String.Split(sep)`: the pieces between the occurrences of `sep`,
   * empty pieces included.
   */
  function Split(s: string, sep: char): (parts: seq<string>)
    ensures |parts| >= 1
    ensures forall i :: 0 <= i < |parts| ==> sep !in parts[i]
  {
    if s == [] then [""]
    else
      var rest := Split(s[1..], sep);
      if s[0] == sep then [""] + rest
      else [[s[0]] + rest[0]] + rest[1..]
  }

  /** `String.Join(sep, parts)`. */
  function Join(parts: seq<string>, sep: char): string
    requires |parts| >= 1
  {
    if |parts| == 1 then parts[0] else parts[0] + [sep] + Join(parts[1..], sep)
  }

  /** Splitting loses nothing: joining the pieces back gives the original string. */
  lemma {:induction false} JoinSplit(s: string, sep: char)
    ensures Join(Split(s, sep), sep) == s
  {
    if s != [] {
      var rest := Split(s[1..], sep);
      JoinSplit(s[1..], sep);
      if s[0] != sep && |rest| > 1 {
        assert Split(s, sep)[1..] == rest[1..];
      }
    }
  }

  /** A string without the separator is a single piece. */
  lemma {:induction false} SplitNoSeparator(s: string, sep: char)
    requires sep !in s
    ensures Split(s, sep) == [s]
  {
    if s != [] {
      SplitNoSeparator(s[1..], sep);
      assert [s[0]] + s[1..] == s;
    }
  }

  /** Splitting at a separator splits the pieces: pieces come out in the order they appear. */
  lemma {:induction false} SplitAppend(a: string, b: string, sep: char)
    ensures Split(a + [sep] + b, sep) == Split(a, sep) + Split(b, sep)
  {
    if a == [] {
      assert a + [sep] + b == [sep] + b;
      assert ([sep] + b)[1..] == b;
    } else {
      assert (a + [sep] + b)[1..] == a[1..] + [sep] + b;
      SplitAppend(a[1..], b, sep);
    }
  }

  /** There is one piece more than there are separators. */
  lemma {:induction false} SplitCount(s: string, sep: char)
    ensures |Split(s, sep)| == Count(s, sep) + 1
  {
    if s != [] {
      SplitCount(s[1..], sep);
    }
  }

  /** The `StringSplitOptions.RemoveEmptyEntries` filter. */
  function RemoveEmpty(parts: seq<string>): (kept: seq<string>)
    ensures |kept| <= |parts|
    ensures forall x :: x in kept <==> x in parts && x != []
  {
    if parts == [] then []
    else (if parts[0] == [] then [] else [parts[0]]) + RemoveEmpty(parts[1..])
  }

  lemma {:induction false} RemoveEmptyAppend(a: seq<string>, b: seq<string>)
    ensures RemoveEmpty(a + b) == RemoveEmpty(a) + RemoveEmpty(b)
  {
    if a != [] {
      var head := if a[0] == [] then [] else [a[0]];
      assert (a + b)[0] == a[0];
      assert (a + b)[1..] == a[1..] + b;
      RemoveEmptyAppend(a[1..], b);
      calc {
        RemoveEmpty(a + b);
        head + RemoveEmpty(a[1..] + b);
        head + (RemoveEmpty(a[1..]) + RemoveEmpty(b));
        (head + RemoveEmpty(a[1..])) + RemoveEmpty(b);
        RemoveEmpty(a) + RemoveEmpty(b);
      }
    } else {
      assert a + b == b;
    }
  }

  // ---------------------------------------------------------------------------
  // Decimal digits, Int32.TryParse and integer formatting
  // ---------------------------------------------------------------------------

  const Int32Min: int := -0x8000_0000
  const Int32Max: int := 0x7FFF_FFFF

  predicate IsDigit(c: char) {
    '0' <= c <= '9'
  }

  predicate AllDigits(s: string) {
    forall i :: 0 <= i < |s| ==> IsDigit(s[i])
  }

  /** The value of a string of decimal digits, most significant first. */
  function DecimalValue(s: string): nat
    requires AllDigits(s)
  {
    if s == [] then 0 else DecimalValue(s[..|s| - 1]) * 10 + (s[|s| - 1] as int - '0' as int)
  }

  function DigitChar(d: nat): (c: char)
    requires d < 10
    ensures IsDigit(c) && c as int - '0' as int == d
  {
    ('0' as int + d) as char
  }

  /** Leading zeros do not change the value of a digit string. */
  lemma {:induction false} LeadingZero(s: string)
    requires AllDigits(s)
    ensures AllDigits(['0'] + s) && DecimalValue(['0'] + s) == DecimalValue(s)
  {
    if s != [] {
      assert (['0'] + s)[..|s|] == ['0'] + s[..|s| - 1];
      LeadingZero(s[..|s| - 1]);
    }
  }

  /** `Int32.ToString()` of a non-negative value: its shortest decimal rendering. */
  function NatToDecimal(n: nat): (s: string)
    ensures |s| >= 1 && AllDigits(s) && DecimalValue(s) == n
    ensures s[0] == '0' ==> n == 0 && |s| == 1
  {
    if n < 10 then [DigitChar(n)]
    else
      var hi := NatToDecimal(n / 10);
      var s := hi + [DigitChar(n % 10)];
      assert s[..|s| - 1] == hi;
      s
  }

  /** Prepends '0' until `s` is at least `width` long. */
  function ZeroPad(s: string, width: nat): (r: string)
    requires AllDigits(s)
    ensures |r| == (if |s| < width then width else |s|)
    ensures AllDigits(r) && DecimalValue(r) == DecimalValue(s)
    ensures r[|r| - |s|..] == s
    decreases width - |s|
  {
    if |s| < width then
      LeadingZero(s);
      var r := ZeroPad(['0'] + s, width);
      assert r[|r| - |s|..] == (r[|r| - |s| - 1..])[1..];
      r
    else s
  }

  /** The standard numeric format `D<width>` of a non-negative value (`{n:D3}`). */
  function FormatD(n: nat, width: nat): (s: string)
    ensures AllDigits(s) && DecimalValue(s) == n
    ensures |s| == (if |NatToDecimal(n)| < width then width else |NatToDecimal(n)|)
  {
    ZeroPad(NatToDecimal(n), width)
  }

  /** How many '\0' characters end `s`. */
  function TrailingNuls(s: string): (n: nat)
    ensures n <= |s|
    ensures forall i :: |s| - n <= i < |s| ==> s[i] == '\0'
    ensures n < |s| ==> s[|s| - n - 1] != '\0'
  {
    if s == [] || s[|s| - 1] != '\0' then 0 else 1 + TrailingNuls(s[..|s| - 1])
  }

  /**
   * The integer syntax of the .NET number parser once any leading white
   * space is skipped: an optional sign ('+' or '-'), one or more ASCII
   * digits, optional white space (`IsNumberWhite`), then any number of
   * '\0' characters; the value, when it fits in 32 bits.
   */
  function ParseInteger(t: string): (r: Option<int>)
    ensures r.Some? ==> Int32Min <= r.value <= Int32Max
    ensures r.Some? && '-' !in t ==> r.value >= 0
    ensures r.Some? ==> exists i :: 0 <= i < |t| && IsDigit(t[i])
  {
    var u := t[..|t| - TrailingNuls(t)];
    var body := u[..|u| - TrailingWhite(u, Number)];
    var signed := |body| > 0 && (body[0] == '-' || body[0] == '+');
    var digits := if signed then body[1..] else body;
    if digits == [] || !AllDigits(digits) then None
    else
      var magnitude: int := DecimalValue(digits);
      var v: int := if signed && body[0] == '-' then -magnitude else magnitude;
      if Int32Min <= v <= Int32Max then
        assert signed && body[0] == '-' ==> t[0] == '-';
        assert IsDigit(body[|body| - 1]) && t[|body| - 1] == body[|body| - 1];
        Some(v)
      else None
  }

  /**
   * `Int32.TryParse(s, out v)` with `NumberStyles.Integer` and a culture whose
   * signs are '+' and '-': leading white space, then the integer syntax of
   * `ParseInteger`.
   */
  function TryParseInt32(s: string): (r: Option<int>)
    ensures r.Some? ==> Int32Min <= r.value <= Int32Max
    ensures r.Some? && '-' !in s ==> r.value >= 0
    ensures r.Some? ==> exists i :: 0 <= i < |s| && IsDigit(s[i])
  {
    var lead := LeadingWhite(s, Number);
    var r := ParseInteger(s[lead..]);
    assert '-' !in s ==> '-' !in s[lead..] by {
      if '-' !in s {
        forall i | 0 <= i < |s| - lead ensures s[lead..][i] != '-' {
          assert s[lead..][i] == s[lead + i];
        }
      }
    }
    assert r.Some? ==> exists i :: 0 <= i < |s| && IsDigit(s[i]) by {
      if r.Some? {
        var i :| 0 <= i < |s| - lead && IsDigit(s[lead..][i]);
        assert s[lead + i] == s[lead..][i];
      }
    }
    r
  }

  /** A digit string is read as its value when that fits in 32 bits, and rejected (overflow) when it does not. */
  lemma IntegerDigits(s: string)
    requires s != [] && AllDigits(s)
    ensures ParseInteger(s) == if DecimalValue(s) <= Int32Max then Some(DecimalValue(s)) else None
  {
    assert IsDigit(s[0]) && IsDigit(s[|s| - 1]);
    assert s[..|s| - TrailingNuls(s)] == s;
    assert s[..|s| - TrailingWhite(s, Number)] == s;
  }

  /** Digits followed by a character that is neither a digit, number white space nor '\0' are rejected. */
  lemma IntegerStrayTail(s: string, c: char)
    requires s != [] && AllDigits(s)
    requires !IsDigit(c) && !IsNumberWhite(c) && c != '\0'
    ensures ParseInteger(s + [c]) == None
  {
    var t := s + [c];
    assert IsDigit(s[0]) && t[|t| - 1] == c;
    assert t[..|t| - TrailingNuls(t)] == t;
    assert t[..|t| - TrailingWhite(t, Number)] == t;
    assert !AllDigits(t) by {
      assert !IsDigit(t[|t| - 1]);
    }
  }

  /** A digit string whose value fits is parsed as that value. */
  lemma ParseDigits(s: string)
    requires s != [] && AllDigits(s) && DecimalValue(s) <= Int32Max
    ensures TryParseInt32(s) == Some(DecimalValue(s))
  {
    assert IsDigit(s[0]);
    assert s[LeadingWhite(s, Number)..] == s;
    IntegerDigits(s);
  }

  /** A '\0' after the digits changes nothing. */
  lemma IntegerTrailingNul(s: string)
    requires s != [] && AllDigits(s)
    ensures ParseInteger(s + ['\0']) == ParseInteger(s)
  {
    var t := s + ['\0'];
    assert IsDigit(s[|s| - 1]);
    assert TrailingNuls(t) == 1 by {
      assert t[..|t| - 1] == s;
    }
    assert t[..|t| - 1] == s;
    assert s[..|s| - TrailingNuls(s)] == s;
  }

  /** Trailing '\0' characters are accepted after the digits: "5\0" is 5. */
  lemma ParseTrailingNul(s: string)
    requires s != [] && AllDigits(s) && DecimalValue(s) <= Int32Max
    ensures TryParseInt32(s + ['\0']) == Some(DecimalValue(s))
  {
    var t := s + ['\0'];
    assert IsDigit(t[0]);
    assert t[LeadingWhite(t, Number)..] == t;
    IntegerTrailingNul(s);
    IntegerDigits(s);
  }

  /** Round trip: `Int32.TryParse(n.ToString())` gives back `n`. */
  lemma ParseFormatted(n: nat)
    requires n <= Int32Max
    ensures TryParseInt32(NatToDecimal(n)) == Some(n)
  {
    ParseDigits(NatToDecimal(n));
  }

  /** The empty string, a lone sign and a non-digit are rejected. */
  lemma ParseRejects()
    ensures TryParseInt32("") == None
    ensures TryParseInt32(" ") == None
    ensures TryParseInt32("-") == None
    ensures TryParseInt32("abc") == None
  {
    assert LeadingWhite(" ", Number) == 1;
    assert " "[1..] == "";
    assert "-"[..1] == "-";
    assert "abc"[..3] == "abc";
  }

  // ---------------------------------------------------------------------------
  // Base16 (section 8 of RFC 4648), upper case, as `Convert.ToHexString`
  // ---------------------------------------------------------------------------

  /** The upper-case Base16 alphabet: '0'..'9' then 'A'..'F'. */
  predicate IsHexChar(c: char) {
    '0' <= c <= '9' || 'A' <= c <= 'F'
  }

  /** The character of the Base16 alphabet with value `v`. */
  function HexChar(v: nat): (c: char)
    requires v < 16
    ensures IsHexChar(c)
  {
    if v < 10 then ('0' as int + v) as char else ('A' as int + v - 10) as char
  }

  /** `Convert.ToHexString`: two upper-case hexadecimal characters per byte, high nibble first. */
  function ToHex(bytes: seq<byte>): (s: string)
    ensures |s| == 2 * |bytes|
    ensures forall i :: 0 <= i < |s| ==> IsHexChar(s[i])
  {
    if bytes == [] then ""
    else
      var b := bytes[0] as int;
      [HexChar(b / 16), HexChar(b % 16)] + ToHex(bytes[1..])
  }

  /** The value of one hexadecimal character: an independent decoder for `ToHex`. */
  function HexValue(c: char): (v: nat)
    requires IsHexChar(c)
    ensures v < 16
  {
    if '0' <= c <= '9' then c as int - '0' as int else c as int - 'A' as int + 10
  }

  /** Base16 decoding of upper-case text. */
  function FromHex(s: string): seq<byte>
    requires |s| % 2 == 0
    requires forall i :: 0 <= i < |s| ==> IsHexChar(s[i])
  {
    if s == [] then []
    else [(HexValue(s[0]) * 16 + HexValue(s[1])) as byte] + FromHex(s[2..])
  }

  /** Round trip: decoding the hexadecimal rendering gives back the bytes, so no two byte strings render alike. */
  lemma {:induction false} FromHexToHex(bytes: seq<byte>)
    ensures FromHex(ToHex(bytes)) == bytes
  {
    if bytes != [] {
      var b := bytes[0] as int;
      var s := ToHex(bytes);
      assert HexValue(HexChar(b / 16)) == b / 16;
      assert HexValue(HexChar(b % 16)) == b % 16;
      assert s[2..] == ToHex(bytes[1..]);
      FromHexToHex(bytes[1..]);
    }
  }
}
