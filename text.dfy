/**
 * The two string helpers of the algorithm: the trailing-comma clean-up applied
 * to recognized text, and the Tesseract configuration string built from the
 * page-segmentation and engine modes. Python's `str` of a non-negative int is
 * modelled by Decimal, and a parser gives each of them a partner.
 */
module Text {

  import opened Wrappers

  /** Index of the page segmentation mode: one of 14 options. */
  type PageSegMode = m: nat | m < 14

  /** Index of the OCR engine mode: one of 4 options. */
  type EngineMode = m: nat | m < 4

  predicate IsDigit(c: char) {
    '0' <= c <= '9'
  }

  predicate AllDigits(s: string) {
    forall i :: 0 <= i < |s| ==> IsDigit(s[i])
  }

  function DigitChar(d: nat): (c: char)
    requires d < 10
    ensures IsDigit(c)
  {
    ('0' as int + d) as char
  }

  function DigitValue(c: char): (d: nat)
    requires IsDigit(c)
    ensures d < 10 && DigitChar(d) == c
  {
    c as int - '0' as int
  }

  /** Python's `str(n)` for a non-negative integer. */
  function Decimal(n: nat): (s: string)
    ensures |s| > 0 && AllDigits(s)
    ensures s == "0" <==> n == 0
    ensures s[0] != '0' || s == "0"
  {
    if n < 10 then [DigitChar(n)] else Decimal(n / 10) + [DigitChar(n % 10)]
  }

  /** The value of a string of decimal digits (the reading direction of Decimal). */
  function ParseDecimal(s: string): nat
    requires AllDigits(s)
  {
    if s == [] then 0 else ParseDecimal(s[..|s| - 1]) * 10 + DigitValue(s[|s| - 1])
  }

  lemma {:induction false} DecimalRoundTrip(n: nat)
    ensures ParseDecimal(Decimal(n)) == n
  {
    if n >= 10 {
      var s := Decimal(n);
      assert s[..|s| - 1] == Decimal(n / 10);
      DecimalRoundTrip(n / 10);
    }
  }

  lemma DecimalInjective(m: nat, n: nat)
    requires Decimal(m) == Decimal(n)
    ensures m == n
  {
    DecimalRoundTrip(m);
    DecimalRoundTrip(n);
  }

  /** Python's `s[-1:]`: the last character, or "" when s is empty. */
  function LastChar(s: string): (r: string)
    ensures s == [] ==> r == []
    ensures s != [] ==> r == [s[|s| - 1]]
  {
    if s == [] then [] else s[|s| - 1..]
  }

  /** Python's `s[:-1]`: everything but the last character, or "" when s is empty. */
  function DropLast(s: string): (r: string)
    ensures s != [] ==> r + [s[|s| - 1]] == s
    ensures s == [] ==> r == []
  {
    if s == [] then [] else s[..|s| - 1]
  }

  /** `if text[-1:] == ',': text = text[:-1]` */
  function StripTrailingComma(text: string): (r: string)
    ensures r == text || r + [','] == text
    ensures r != text <==> (|text| > 0 && text[|text| - 1] == ',')
  {
    if LastChar(text) == "," then DropLast(text) else text
  }

  /** The clean-up applied to recognized text when the "Remove comma" option is on. */
  function PostProcess(removeComma: bool, text: string): (r: string)
    ensures !removeComma ==> r == text
    ensures removeComma ==> r == StripTrailingComma(text)
  {
    if removeComma then StripTrailingComma(text) else text
  }

  /** Stripping twice changes nothing more exactly when the text did not end in two commas. */
  lemma SecondStripChangesOnlyDoubleComma(text: string)
    ensures StripTrailingComma(StripTrailingComma(text)) == StripTrailingComma(text)
            <==> !(|text| >= 2 && text[|text| - 2..] == ",,")
  {
  }

  lemma StripOnDoubleComma()
    ensures StripTrailingComma("a,,") == "a,"
    ensures StripTrailingComma(StripTrailingComma("a,,")) == "a"
    ensures StripTrailingComma("") == ""
    ensures StripTrailingComma("abc,") == "abc"
  {
  }

  /** `'--psm ' + str(psm) + ' --oem ' + str(oem)` */
  function ConfigString(psm: PageSegMode, oem: EngineMode): (r: string)
    ensures |r| == 13 + |Decimal(psm)| + |Decimal(oem)|
    ensures r[..6] == "--psm "
  {
    "--psm " + Decimal(psm) + " --oem " + Decimal(oem)
  }

  /** Length of the run of digits at the start of s. */
  function DigitRun(s: string): (k: nat)
    ensures k <= |s| && AllDigits(s[..k])
    ensures k < |s| ==> !IsDigit(s[k])
  {
    if s == [] || !IsDigit(s[0]) then 0 else 1 + DigitRun(s[1..])
  }

  lemma {:induction false} DigitRunOfDigits(d: string, t: string)
    requires AllDigits(d)
    requires t != [] && !IsDigit(t[0])
    ensures DigitRun(d + t) == |d|
  {
    if d != [] {
      assert (d + t)[1..] == d[1..] + t;
      DigitRunOfDigits(d[1..], t);
    }
  }

  /** Reads back the two mode numbers from a configuration string. */
  function ParseConfig(s: string): Option<(nat, nat)>
  {
    if |s| < 6 || s[..6] != "--psm " then None
    else
      var rest := s[6..];
      var k := DigitRun(rest);
      if k == 0 || |rest| < k + 7 || rest[k..k + 7] != " --oem " then None
      else
        var tail := rest[k + 7..];
        if tail == [] || !AllDigits(tail) then None
        else Some((ParseDecimal(rest[..k]), ParseDecimal(tail)))
  }

  lemma ConfigRoundTrip(psm: PageSegMode, oem: EngineMode)
    ensures ParseConfig(ConfigString(psm, oem)) == Some((psm as nat, oem as nat))
  {
    var s := ConfigString(psm, oem);
    var dp, dq := Decimal(psm), Decimal(oem);
    var rest := s[6..];
    assert rest == dp + (" --oem " + dq);
    DigitRunOfDigits(dp, " --oem " + dq);
    assert rest[..|dp|] == dp;
    assert rest[|dp|..|dp| + 7] == " --oem ";
    assert rest[|dp| + 7..] == dq;
    DecimalRoundTrip(psm);
    DecimalRoundTrip(oem);
  }
}
