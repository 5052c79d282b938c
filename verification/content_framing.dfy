/**
 * How a request's body is framed, decided from its Transfer-Encoding and
 * Content-Length headers: chunked encoding wins, otherwise a Content-Length
 * that is a plain decimal fitting in a signed 64-bit integer, otherwise no
 * usable length at all.
 */
module ContentFraming {
  import opened Wrappers

  // ---------------------------------------------------------------------------
  // String.Trim and OrdinalIgnoreCase

  /** The code points System.Char.IsWhiteSpace accepts. */
  predicate IsWhiteSpace(c: char) {
    var x := c as int;
    (0x09 <= x <= 0x0D) || x == 0x20 || x == 0x85 || x == 0xA0 || x == 0x1680
    || (0x2000 <= x <= 0x200A) || x == 0x2028 || x == 0x2029 || x == 0x202F
    || x == 0x205F || x == 0x3000
  }

  predicate AllWhiteSpace(s: string) {
    forall k :: 0 <= k < |s| ==> IsWhiteSpace(s[k])
  }

  /** How many white-space characters s starts with. */
  function LeadingWhiteSpace(s: string): (n: nat)
    ensures n <= |s|
    ensures forall k :: 0 <= k < n ==> IsWhiteSpace(s[k])
    ensures n < |s| ==> !IsWhiteSpace(s[n])
  {
    if s != [] && IsWhiteSpace(s[0]) then 1 + LeadingWhiteSpace(s[1..]) else 0
  }

  /** How many white-space characters s ends with. */
  function TrailingWhiteSpace(s: string): (n: nat)
    ensures n <= |s|
    ensures forall k :: |s| - n <= k < |s| ==> IsWhiteSpace(s[k])
    ensures n < |s| ==> !IsWhiteSpace(s[|s| - n - 1])
  {
    if s != [] && IsWhiteSpace(s[|s| - 1]) then 1 + TrailingWhiteSpace(s[..|s| - 1]) else 0
  }

  /**
   * String.Trim: the part of s between its leading and its trailing white space;
   * it neither starts nor ends with white space, and only white space was cut.
   */
  function Trim(s: string): (r: string)
    ensures |r| <= |s|
    ensures r != [] ==> !IsWhiteSpace(r[0]) && !IsWhiteSpace(r[|r| - 1])
    ensures AllWhiteSpace(s) ==> r == []
  {
    var rest := s[LeadingWhiteSpace(s)..];
    rest[..|rest| - TrailingWhiteSpace(rest)]
  }

  /** Trim removes exactly the white space around a value that has none at its ends. */
  lemma TrimPadded(before: string, core: string, after: string)
    requires AllWhiteSpace(before) && AllWhiteSpace(after)
    requires core != [] ==> !IsWhiteSpace(core[0]) && !IsWhiteSpace(core[|core| - 1])
    ensures Trim(before + core + after) == core
  {
    var s := before + core + after;
    if core == [] {
      assert AllWhiteSpace(s);
    } else {
      LeadingWhiteSpaceExact(s, |before|);
      var rest := s[|before|..];
      assert rest == core + after;
      TrailingWhiteSpaceExact(rest, |after|);
      assert rest[..|rest| - |after|] == core;
    }
  }

  lemma {:induction false} LeadingWhiteSpaceExact(s: string, n: nat)
    requires n < |s| && !IsWhiteSpace(s[n])
    requires forall k :: 0 <= k < n ==> IsWhiteSpace(s[k])
    ensures LeadingWhiteSpace(s) == n
  {
    if n > 0 {
      LeadingWhiteSpaceExact(s[1..], n - 1);
    }
  }

  lemma {:induction false} TrailingWhiteSpaceExact(s: string, n: nat)
    requires n < |s| && !IsWhiteSpace(s[|s| - n - 1])
    requires forall k :: |s| - n <= k < |s| ==> IsWhiteSpace(s[k])
    ensures TrailingWhiteSpace(s) == n
  {
    if n > 0 {
      TrailingWhiteSpaceExact(s[..|s| - 1], n - 1);
    }
  }

  /** A value with no white space at its ends is its own trim. */
  lemma TrimUnpadded(s: string)
    requires s != [] ==> !IsWhiteSpace(s[0]) && !IsWhiteSpace(s[|s| - 1])
    ensures Trim(s) == s
  {
    TrimPadded("", s, "");
    assert "" + s + "" == s;
  }

  /** ASCII upper-casing, the part of ordinal case folding that matters for "chunked". */
  function ToUpperAscii(c: char): char {
    if 'a' <= c <= 'z' then (c as int - 32) as char else c
  }

  predicate EqualsIgnoreCase(a: string, b: string) {
    |a| == |b| && forall i :: 0 <= i < |a| ==> ToUpperAscii(a[i]) == ToUpperAscii(b[i])
  }

  // ---------------------------------------------------------------------------
  // long.TryParse(s, NumberStyles.None, InvariantCulture): digits only, no sign,
  // no white space, no separators, and no value above long.MaxValue.

  const INT64_MAX: int := 0x7FFF_FFFF_FFFF_FFFF

  predicate IsAsciiDigit(c: char) {
    '0' <= c <= '9'
  }

  predicate AllDigits(s: string) {
    forall i :: 0 <= i < |s| ==> IsAsciiDigit(s[i])
  }

  function DigitValue(c: char): (d: nat)
    requires IsAsciiDigit(c)
    ensures d <= 9
  {
    c as int - '0' as int
  }

  /** The value of a string of decimal digits, read most significant digit first. */
  function DecimalValue(s: string): nat
    requires AllDigits(s)
  {
    if s == [] then 0 else 10 * DecimalValue(s[..|s| - 1]) + DigitValue(s[|s| - 1])
  }

  /** What the parser accepts: a non-empty run of digits whose value fits in a long. */
  predicate IsInt64Literal(s: string) {
    s != [] && AllDigits(s) && DecimalValue(s) <= INT64_MAX
  }

  /** Appending digits never makes the value smaller. */
  lemma {:induction false} DecimalValuePrefix(s: string, j: nat)
    requires j <= |s| && AllDigits(s[..j])
    ensures AllDigits(s) ==> DecimalValue(s[..j]) <= DecimalValue(s)
  {
    if AllDigits(s) && j < |s| {
      var init := s[..|s| - 1];
      assert init[..j] == s[..j];
      DecimalValuePrefix(init, j);
    } else if j == |s| {
      assert s[..j] == s;
    }
  }

  /**
   * The parser's loop: digits from position i on are accumulated into acc, which
   * already holds the value of s[..i]; it gives up at a non-digit or as soon as
   * the value exceeds long.MaxValue.
   */
  function ParseDigitsFrom(s: string, i: nat, acc: nat): (r: Option<int>)
    requires i <= |s| && AllDigits(s[..i]) && acc == DecimalValue(s[..i]) && acc <= INT64_MAX
    ensures r == if AllDigits(s) && DecimalValue(s) <= INT64_MAX then Some(DecimalValue(s)) else None
    decreases |s| - i
  {
    if i == |s| then
      assert s[..i] == s;
      Some(acc)
    else if !IsAsciiDigit(s[i]) then
      None
    else
      assert s[..i + 1][..i] == s[..i];
      assert AllDigits(s[..i + 1]);
      var next := 10 * acc + DigitValue(s[i]);
      if next > INT64_MAX then
        DecimalValuePrefix(s, i + 1);
        None
      else
        ParseDigitsFrom(s, i + 1, next)
  }

  /** long.TryParse with NumberStyles.None on an already trimmed string. */
  function ParseInt64(s: string): (r: Option<int>)
    ensures r.Some? <==> IsInt64Literal(s)
    ensures r.Some? ==> r.value == DecimalValue(s) && 0 <= r.value <= INT64_MAX
  {
    if s == [] then None
    else
      assert s[..0] == [];
      ParseDigitsFrom(s, 0, 0)
  }

  lemma ParseExamples()
    ensures ParseInt64("0") == Some(0)
    ensures ParseInt64("0042") == Some(42)
    ensures ParseInt64("") == None
    ensures ParseInt64("-1") == None
    ensures ParseInt64("+1") == None
    ensures ParseInt64("1,000") == None
    ensures ParseInt64("1 0") == None
  {
    assert !IsAsciiDigit("-1"[0]);
    assert !IsAsciiDigit("+1"[0]);
    assert !IsAsciiDigit("1,000"[1]);
    assert !IsAsciiDigit("1 0"[1]);
  }

  // ---------------------------------------------------------------------------
  // Classification

  /** The request's boundary type; Unclassified is BoundaryType.None, "not looked at yet". */
  datatype BoundaryType = Unclassified | Chunked | ContentLength | Invalid

  /** A classification together with the content length it remembers. */
  datatype Framing = Framing(boundary: BoundaryType, length: Option<int>)

  /** A header as one string; an absent header reads as the empty string. */
  function HeaderText(header: Option<string>): string {
    header.GetOr("")
  }

  predicate IsChunked(transferEncoding: Option<string>) {
    EqualsIgnoreCase("chunked", Trim(HeaderText(transferEncoding)))
  }

  /** Whether the Content-Length header holds a usable length. */
  predicate HasValidLength(contentLength: Option<string>) {
    contentLength.Some? && IsInt64Literal(Trim(contentLength.value))
  }

  /** The decision the ContentLength getter makes the first time it is read. */
  function Classify(transferEncoding: Option<string>, contentLength: Option<string>): (f: Framing)
    ensures f.boundary != Unclassified
    ensures f.length.Some? <==> f.boundary == ContentLength
    ensures f.length.Some? ==> 0 <= f.length.value <= INT64_MAX
  {
    if IsChunked(transferEncoding) then
      Framing(Chunked, None)
    else if contentLength.Some? && ParseInt64(Trim(contentLength.value)).Some? then
      Framing(ContentLength, ParseInt64(Trim(contentLength.value)))
    else
      Framing(Invalid, None)
  }

  /**
   * The three outcomes: chunked wins whatever Content-Length says; otherwise a
   * usable Content-Length gives its value; anything else is Invalid.
   */
  lemma ClassifyCases(transferEncoding: Option<string>, contentLength: Option<string>)
    ensures var f := Classify(transferEncoding, contentLength);
      (IsChunked(transferEncoding) ==> f == Framing(Chunked, None)) &&
      (!IsChunked(transferEncoding) ==> (f.boundary == ContentLength <==> HasValidLength(contentLength))) &&
      (!IsChunked(transferEncoding) && !HasValidLength(contentLength) ==> f == Framing(Invalid, None)) &&
      (f.boundary == ContentLength ==>
         HasValidLength(contentLength) && f.length == Some(DecimalValue(Trim(contentLength.value))))
  {
  }

  /** The HasEntityBody formula over a remembered classification. */
  predicate EntityBody(f: Framing) {
    (f.length.Some? && f.length.value > 0 && f.boundary == ContentLength) || f.boundary == Chunked
  }

  /** A request has a body exactly when it is chunked or declares a positive length. */
  lemma HasEntityBodyIff(transferEncoding: Option<string>, contentLength: Option<string>)
    ensures EntityBody(Classify(transferEncoding, contentLength)) <==>
      IsChunked(transferEncoding)
      || (HasValidLength(contentLength) && DecimalValue(Trim(contentLength.value)) > 0)
  {
    ClassifyCases(transferEncoding, contentLength);
  }

  /** With neither header the classification is Invalid and there is no body. */
  lemma NoHeadersNoBody()
    ensures Classify(None, None) == Framing(Invalid, None)
    ensures !EntityBody(Classify(None, None))
  {
    assert !EqualsIgnoreCase("chunked", "");
  }

  /** The first 6, 12 and 18 digits of long.MaxValue, evaluated in steps the solver can take. */
  lemma MaxDigits6()
    ensures DecimalValue("922337") == 922337
  {
    assert DecimalValue("9") == 9;
    assert DecimalValue("92") == 92 by {
      assert "92"[..1] == "9";
    }
    assert DecimalValue("922") == 922 by {
      assert "922"[..2] == "92";
    }
    assert DecimalValue("9223") == 9223 by {
      assert "9223"[..3] == "922";
    }
    assert DecimalValue("92233") == 92233 by {
      assert "92233"[..4] == "9223";
    }
    assert DecimalValue("922337") == 922337 by {
      assert "922337"[..5] == "92233";
    }
  }

  lemma MaxDigits12()
    ensures DecimalValue("922337203685") == 922337203685
  {
    MaxDigits6();
    assert DecimalValue("9223372") == 9223372 by {
      assert "9223372"[..6] == "922337";
    }
    assert DecimalValue("92233720") == 92233720 by {
      assert "92233720"[..7] == "9223372";
    }
    assert DecimalValue("922337203") == 922337203 by {
      assert "922337203"[..8] == "92233720";
    }
    assert DecimalValue("9223372036") == 9223372036 by {
      assert "9223372036"[..9] == "922337203";
    }
    assert DecimalValue("92233720368") == 92233720368 by {
      assert "92233720368"[..10] == "9223372036";
    }
    assert DecimalValue("922337203685") == 922337203685 by {
      assert "922337203685"[..11] == "92233720368";
    }
  }

  lemma MaxDigits18()
    ensures DecimalValue("922337203685477580") == 922337203685477580
  {
    MaxDigits12();
    assert DecimalValue("9223372036854") == 9223372036854 by {
      assert "9223372036854"[..12] == "922337203685";
    }
    assert DecimalValue("92233720368547") == 92233720368547 by {
      assert "92233720368547"[..13] == "9223372036854";
    }
    assert DecimalValue("922337203685477") == 922337203685477 by {
      assert "922337203685477"[..14] == "92233720368547";
    }
    assert DecimalValue("9223372036854775") == 9223372036854775 by {
      assert "9223372036854775"[..15] == "922337203685477";
    }
    assert DecimalValue("92233720368547758") == 92233720368547758 by {
      assert "92233720368547758"[..16] == "9223372036854775";
    }
    assert DecimalValue("922337203685477580") == 922337203685477580 by {
      assert "922337203685477580"[..17] == "92233720368547758";
    }
  }

  /** The digits of long.MaxValue and of one more. */
  lemma MaxDigits19()
    ensures AllDigits("9223372036854775807") && DecimalValue("9223372036854775807") == INT64_MAX
    ensures AllDigits("9223372036854775808") && DecimalValue("9223372036854775808") == INT64_MAX + 1
  {
    MaxDigits18();
    assert "9223372036854775807"[..18] == "922337203685477580";
    assert "9223372036854775808"[..18] == "922337203685477580";
  }

  /** long.MaxValue is the largest accepted length ... */
  lemma Int64MaxAccepted()
    ensures ParseInt64("9223372036854775807") == Some(INT64_MAX)
  {
    MaxDigits19();
  }

  /** ... and one more overflows. */
  lemma Int64OverflowRejected()
    ensures ParseInt64("9223372036854775808") == None
  {
    MaxDigits19();
  }

  /** Chunked wins over any Content-Length, whatever its case and the white space around it. */
  lemma ChunkedExample(before: string, after: string, contentLength: Option<string>)
    requires AllWhiteSpace(before) && AllWhiteSpace(after)
    ensures Classify(Some(before + "Chunked" + after), contentLength) == Framing(Chunked, None)
  {
    TrimPadded(before, "Chunked", after);
    assert EqualsIgnoreCase("chunked", "Chunked");
    ClassifyCases(Some(before + "Chunked" + after), contentLength);
  }

  /** A padded "10" is a length of 10 when the request is not chunked. */
  lemma LengthExample(transferEncoding: Option<string>, before: string, after: string)
    requires !IsChunked(transferEncoding)
    requires AllWhiteSpace(before) && AllWhiteSpace(after)
    ensures Classify(transferEncoding, Some(before + "10" + after)) == Framing(ContentLength, Some(10))
  {
    TrimPadded(before, "10", after);
    TenIsLength();
    ClassifyCases(transferEncoding, Some(before + "10" + after));
  }

  lemma TenIsLength()
    ensures ParseInt64("10") == Some(10)
  {
    assert "10"[..1] == "1";
  }

  lemma ZeroLengthExample()
    ensures Classify(None, Some("0")) == Framing(ContentLength, Some(0))
    ensures !EntityBody(Classify(None, Some("0")))
  {
    TrimUnpadded("");
    TrimUnpadded("0");
    assert ParseInt64("0") == Some(0);
  }

  lemma SignedLengthExample()
    ensures Classify(None, Some("-5")) == Framing(Invalid, None)
  {
    TrimUnpadded("");
    TrimUnpadded("-5");
    assert !IsAsciiDigit("-5"[0]);
  }
}
