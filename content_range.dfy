/**
 * The byte-range form of the Content-Range header field (section 14.4 of
 * RFC 9110): `bytes first-pos-last-pos/complete-length`, written with the
 * decimal numerals of `Decimal`, and a parser that reads it back.
 */
module ContentRange {
  import opened Options
  import opened Decimal

  /** The three numbers of a byte-range Content-Range value. */
  datatype ByteRange = ByteRange(first: nat, last: nat, complete: nat)

  const Unit: string := "bytes "

  /**
   * A range that RFC 9110 accepts: the last position is not before the first,
   * and lies inside the representation of the given complete length.
   */
  predicate ValidRange(r: ByteRange) {
    r.first <= r.last < r.complete
  }

  /** The header value `bytes {first}-{last}/{complete}`. */
  function Format(first: nat, last: nat, complete: nat): string {
    Unit + NatToString(first) + "-" + NatToString(last) + "/" + NatToString(complete)
  }

  /** Reads a header value of the shape `Format` writes; refuses anything else. */
  function Parse(h: string): Option<ByteRange> {
    if |h| < |Unit| || h[..|Unit|] != Unit then None
    else
      var rest := h[|Unit|..];
      var a := DigitRun(rest);
      if a == 0 || a == |rest| || rest[a] != '-' then None
      else
        match ParseLastAndLength(rest[a + 1..])
        case None => None
        case Some(p) => Some(ByteRange(DigitsValue(rest[..a]), p.0, p.1))
  }

  /** Reads the `last-pos/complete-length` tail of a header value. */
  function ParseLastAndLength(s: string): Option<(nat, nat)> {
    var b := DigitRun(s);
    if b == 0 || b == |s| || s[b] != '/' then None
    else
      var t := s[b + 1..];
      if |t| == 0 || !AllDigits(t) then None
      else Some((DigitsValue(s[..b]), DigitsValue(t)))
  }

  /** Splits `d + sep + t` at the end of the digit run `d`. */
  lemma {:induction false} SplitAtSeparator(d: string, sep: char, t: string)
    requires |d| > 0 && AllDigits(d) && !IsDigit(sep)
    ensures var s := d + [sep] + t;
      DigitRun(s) == |d| && s[|d|] == sep && s[..|d|] == d && s[|d| + 1..] == t
  {
    DigitRunOfDigits(d, [sep] + t);
    assert d + [sep] + t == d + ([sep] + t);
  }

  lemma ParseLastAndLengthShape(B: string, C: string)
    requires |B| > 0 && AllDigits(B)
    requires |C| > 0 && AllDigits(C)
    ensures ParseLastAndLength(B + ['/'] + C) == Some((DigitsValue(B), DigitsValue(C)))
  {
    SplitAtSeparator(B, '/', C);
  }

  /** Any value of the formatted shape is read as the numbers its three numerals denote. */
  lemma ParseShape(A: string, B: string, C: string)
    requires |A| > 0 && AllDigits(A)
    requires |B| > 0 && AllDigits(B)
    requires |C| > 0 && AllDigits(C)
    ensures Parse(Unit + A + "-" + B + "/" + C)
         == Some(ByteRange(DigitsValue(A), DigitsValue(B), DigitsValue(C)))
  {
    var h := Unit + A + "-" + B + "/" + C;
    var rest2 := B + ['/'] + C;
    var rest := A + ['-'] + rest2;
    assert h == Unit + rest;
    assert h[..|Unit|] == Unit && h[|Unit|..] == rest;
    SplitAtSeparator(A, '-', rest2);
    ParseLastAndLengthShape(B, C);
  }

  /** Parsing a formatted header recovers exactly the three numbers it was made from. */
  lemma ParseFormat(first: nat, last: nat, complete: nat)
    ensures Parse(Format(first, last, complete)) == Some(ByteRange(first, last, complete))
  {
    ParseShape(NatToString(first), NatToString(last), NatToString(complete));
    DigitsValueOfNatToString(first);
    DigitsValueOfNatToString(last);
    DigitsValueOfNatToString(complete);
  }

  /** Different ranges give different header values. */
  lemma FormatInjective(r: ByteRange, s: ByteRange)
    requires Format(r.first, r.last, r.complete) == Format(s.first, s.last, s.complete)
    ensures r == s
  {
    ParseFormat(r.first, r.last, r.complete);
    ParseFormat(s.first, s.last, s.complete);
  }
}
