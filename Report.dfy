/**
 * The serial report of src/main.cpp (lines 101-103):
 * `snprintf(report, 32, "%6d %6d %1d %1d", countsLeft, countsRight,
 * errorLeft, errorRight)`. Each `%Nd` writes a signed decimal,
 * right-justified with spaces to at least N characters; the two `bool`
 * flags are promoted to the integers 0 and 1. `snprintf` truncates to
 * the buffer size minus one for the terminating NUL.
 *
 * A parser for the line is given as its inverse, so that the round trip
 * shows the format loses nothing.
 */
module Report {
  import opened Options

  /** An `int16_t`, the type of the encoder counts. */
  type Int16 = x: int | -0x8000 <= x < 0x8000

  /** `sizeof(report)`. */
  const ReportBufferSize: nat := 32

  /** Field widths of the format string. */
  const CountWidth: nat := 6
  const FlagWidth: nat := 1

  predicate IsDigit(c: char)
  {
    '0' <= c <= '9'
  }

  predicate AllDigits(s: string)
  {
    forall k :: 0 <= k < |s| ==> IsDigit(s[k])
  }

  function DigitChar(d: nat): (c: char)
    requires d < 10
    ensures IsDigit(c) && c as int - '0' as int == d
  {
    ('0' as int + d) as char
  }

  function DigitValue(c: char): (d: nat)
    requires IsDigit(c)
    ensures d < 10 && DigitChar(d) == c
  {
    c as int - '0' as int
  }

  /** The decimal digits of `n`, most significant first, without leading zeros. */
  function Digits(n: nat): (s: string)
    ensures 1 <= |s| && AllDigits(s)
    ensures |s| > 1 ==> s[0] != '0'
    decreases n
  {
    if n < 10 then [DigitChar(n)] else Digits(n / 10) + [DigitChar(n % 10)]
  }

  /** What `%d` writes for `n` before padding: a minus sign for negatives. */
  function Decimal(n: int): (s: string)
    ensures 1 <= |s| && s[0] != ' '
    ensures n < 0 <==> s[0] == '-'
  {
    if n < 0 then "-" + Digits(-n) else Digits(n)
  }

  /** Right-justification: `s` preceded by enough spaces to fill `width`. */
  function Padded(s: string, width: nat): (r: string)
    ensures |r| == if |s| >= width then |s| else width
  {
    if |s| >= width then s else seq(width - |s|, _ => ' ') + s
  }

  /** A padded field is spaces followed by the unpadded text. */
  lemma PaddedShape(s: string, width: nat)
    ensures var r := Padded(s, width);
      r[|r| - |s|..] == s && forall k :: 0 <= k < |r| - |s| ==> r[k] == ' '
  {
  }

  /**
   * What `%<width>d` writes for `n`: the `%d` text, widened to `width`
   * characters when it is shorter.
   */
  function Field(n: int, width: nat): (r: string)
    ensures |r| == if |Decimal(n)| >= width then |Decimal(n)| else width
  {
    Padded(Decimal(n), width)
  }

  /** A `bool` passed to `%d` is promoted to 0 or 1. */
  function FlagValue(b: bool): (v: nat)
    ensures v < 2
  {
    if b then 1 else 0
  }

  /**
   * The text `snprintf(report, sizeof(report), "%6d %6d %1d %1d", ...)`
   * formats. For any `int16_t` counts it is exactly 17 characters: two
   * width-6 counts, two one-digit flags and three single spaces.
   */
  function ReportLine(countsLeft: Int16, countsRight: Int16, errorLeft: bool, errorRight: bool): (line: string)
    ensures |line| == 17
  {
    var left := Field(countsLeft, CountWidth);
    var right := Field(countsRight, CountWidth);
    DecimalInt16Fits(countsLeft);
    DecimalInt16Fits(countsRight);
    FlagField(errorLeft);
    FlagField(errorRight);
    left + " " + right + " " + Field(FlagValue(errorLeft), FlagWidth) + " " + Field(FlagValue(errorRight), FlagWidth)
  }

  /**
   * What `snprintf` leaves in a buffer of `size` bytes: the formatted
   * text, cut to `size - 1` characters to leave room for the NUL.
   */
  function Snprintf(text: string, size: nat): (stored: string)
    requires size >= 1
    ensures |stored| < size
    ensures stored <= text
    ensures |stored| == if |text| < size then |text| else size - 1
    ensures stored == text <==> |text| < size
  {
    if |text| < size then text else text[..size - 1]
  }

  function Pow10(k: nat): (p: nat)
    ensures p >= 1
  {
    if k == 0 then 1 else 10 * Pow10(k - 1)
  }

  /** A number below 10^k has at most k digits. */
  lemma {:induction false} DigitsFit(n: nat, k: nat)
    requires 1 <= k && n < Pow10(k)
    ensures |Digits(n)| <= k
    decreases k
  {
    if n >= 10 {
      assert k > 1;
      DigitsFit(n / 10, k - 1);
    }
  }

  /** Every `int16_t` count takes at most 6 characters, sign included. */
  lemma DecimalInt16Fits(n: Int16)
    ensures |Decimal(n)| <= CountWidth
  {
    assert Pow10(5) == 100000;
    if n < 0 {
      var m: nat := -(n as int);
      DigitsFit(m, 5);
    } else {
      DigitsFit(n, 5);
    }
  }

  /** The report always fits the 32-byte buffer, so `snprintf` never truncates it. */
  lemma ReportFitsBuffer(countsLeft: Int16, countsRight: Int16, errorLeft: bool, errorRight: bool)
    ensures var line := ReportLine(countsLeft, countsRight, errorLeft, errorRight);
      Snprintf(line, ReportBufferSize) == line
  {
  }

  /** The worked example: -5, 1234, true, false. */
  lemma ReportExample()
    ensures ReportLine(-5, 1234, true, false) == "    -5   1234 1 0"
  {
    ExampleFields();
  }

  lemma ExampleFields()
    ensures Field(-5, CountWidth) == "    -5"
    ensures Field(1234, CountWidth) == "  1234"
    ensures Field(1, FlagWidth) == "1" && Field(0, FlagWidth) == "0"
  {
    assert Digits(5) == "5";
    assert Digits(1) == "1" && Digits(0) == "0";
    assert Digits(12) == "12";
    assert Digits(123) == "123";
  }

  // ---------------------------------------------------------------------
  // Reading a report back.

  /** The fields of one report line. */
  datatype ReportFields = ReportFields(countsLeft: int, countsRight: int, errorLeft: bool, errorRight: bool)

  /** The number a string of decimal digits denotes. */
  function ParseDigits(s: string): nat
    requires AllDigits(s)
    decreases |s|
  {
    if s == [] then 0 else 10 * ParseDigits(s[..|s| - 1]) + DigitValue(s[|s| - 1])
  }

  /** The number `%d` text denotes, if it is well formed. */
  function ParseDecimal(s: string): Option<int>
  {
    if |s| >= 2 && s[0] == '-' && AllDigits(s[1..]) then Some(-(ParseDigits(s[1..]) as int))
    else if |s| >= 1 && AllDigits(s) then Some(ParseDigits(s))
    else None
  }

  /** `s` without its leading spaces. */
  function TrimLeft(s: string): (r: string)
    ensures |r| <= |s| && r == s[|s| - |r|..]
    ensures r == [] || r[0] != ' '
    decreases |s|
  {
    if s != [] && s[0] == ' ' then TrimLeft(s[1..]) else s
  }

  /** The number a padded field denotes. */
  function ParseField(s: string): Option<int>
  {
    ParseDecimal(TrimLeft(s))
  }

  function ParseFlag(c: char): Option<bool>
  {
    if c == '0' then Some(false) else if c == '1' then Some(true) else None
  }

  /** Reads a 17-character report line back into its fields. */
  function ParseReport(line: string): Option<ReportFields>
  {
    if |line| != 17 || line[6] != ' ' || line[13] != ' ' || line[15] != ' ' then None
    else
      match (ParseField(line[..6]), ParseField(line[7..13]), ParseFlag(line[14]), ParseFlag(line[16]))
      case (Some(l), Some(r), Some(el), Some(er)) => Some(ReportFields(l, r, el, er))
      case _ => None
  }

  lemma {:induction false} ParseDigitsRoundTrip(n: nat)
    ensures ParseDigits(Digits(n)) == n
    decreases n
  {
    if n >= 10 {
      var s := Digits(n);
      assert s[..|s| - 1] == Digits(n / 10);
      ParseDigitsRoundTrip(n / 10);
    }
  }

  lemma ParseDecimalRoundTrip(n: int)
    ensures ParseDecimal(Decimal(n)) == Some(n)
  {
    ParseDigitsRoundTrip(if n < 0 then -n else n);
    if n < 0 {
      ParseNegative(Digits(-n));
    } else {
      ParseUnsigned(Digits(n));
    }
  }

  lemma ParseNegative(d: string)
    requires |d| >= 1 && AllDigits(d)
    ensures ParseDecimal("-" + d) == Some(-(ParseDigits(d) as int))
  {
    assert ("-" + d)[1..] == d;
  }

  lemma ParseUnsigned(d: string)
    requires |d| >= 1 && AllDigits(d)
    ensures ParseDecimal(d) == Some(ParseDigits(d) as int)
  {
    assert IsDigit(d[0]);
  }

  /** Trimming the spaces of a right-justified field gives back its text. */
  lemma {:induction false} TrimPadded(s: string, width: nat)
    requires s != [] && s[0] != ' '
    ensures TrimLeft(Padded(s, width)) == s
    decreases width
  {
    if |s| < width {
      var p := Padded(s, width);
      assert p[0] == ' ';
      assert p[1..] == Padded(s, width - 1);
      TrimPadded(s, width - 1);
    }
  }

  /** Trimming and reading back a `%<width>d` field gives its number. */
  lemma ParseFieldRoundTrip(n: int, width: nat)
    ensures ParseField(Field(n, width)) == Some(n)
  {
    TrimPadded(Decimal(n), width);
    ParseDecimalRoundTrip(n);
  }

  /** A line with every field in place parses to those fields. */
  lemma ParseLaidOut(line: string, l: int, r: int, el: bool, er: bool)
    requires |line| == 17 && line[6] == ' ' && line[13] == ' ' && line[15] == ' '
    requires ParseField(line[..6]) == Some(l) && ParseField(line[7..13]) == Some(r)
    requires line[14] == (if el then '1' else '0') && line[16] == (if er then '1' else '0')
    ensures ParseReport(line) == Some(ReportFields(l, r, el, er))
  {
  }

  /** Where each field of the format lands in the 17-character line. */
  lemma ReportLayout(countsLeft: Int16, countsRight: Int16, errorLeft: bool, errorRight: bool)
    ensures var line := ReportLine(countsLeft, countsRight, errorLeft, errorRight);
      && |line| == 17
      && line[..6] == Field(countsLeft, CountWidth)
      && line[7..13] == Field(countsRight, CountWidth)
      && line[6] == ' ' && line[13] == ' ' && line[15] == ' '
      && line[14] == (if errorLeft then '1' else '0')
      && line[16] == (if errorRight then '1' else '0')
  {
    DecimalInt16Fits(countsLeft);
    DecimalInt16Fits(countsRight);
    FlagField(errorLeft);
    FlagField(errorRight);
    Slices(Field(countsLeft, CountWidth), Field(countsRight, CountWidth),
           Field(FlagValue(errorLeft), FlagWidth), Field(FlagValue(errorRight), FlagWidth));
  }

  /**
   * The report line of any counts and flags parses back to exactly those
   * values, so distinct inputs give distinct lines.
   */
  lemma ReportRoundTrip(countsLeft: Int16, countsRight: Int16, errorLeft: bool, errorRight: bool)
    ensures ParseReport(ReportLine(countsLeft, countsRight, errorLeft, errorRight))
      == Some(ReportFields(countsLeft, countsRight, errorLeft, errorRight))
  {
    var line := ReportLine(countsLeft, countsRight, errorLeft, errorRight);
    ReportLayout(countsLeft, countsRight, errorLeft, errorRight);
    ParseFieldRoundTrip(countsLeft, CountWidth);
    ParseFieldRoundTrip(countsRight, CountWidth);
    ParseLaidOut(line, countsLeft, countsRight, errorLeft, errorRight);
  }

  /** `%1d` of a flag is the single digit 0 or 1. */
  lemma FlagField(b: bool)
    ensures Field(FlagValue(b), FlagWidth) == [if b then '1' else '0']
  {
    assert Digits(0) == "0" && Digits(1) == "1";
  }

  lemma Slices(a: string, b: string, c: string, d: string)
    requires |a| == 6 && |b| == 6 && |c| == 1 && |d| == 1
    ensures var line := a + " " + b + " " + c + " " + d;
      |line| == 17 && line[..6] == a && line[7..13] == b
      && line[6] == ' ' && line[13] == ' ' && line[15] == ' '
      && line[14] == c[0] && line[16] == d[0]
  {
    var line := a + " " + b + " " + c + " " + d;
    assert line[..6] == a;
    assert line[7..13] == b;
  }
}
