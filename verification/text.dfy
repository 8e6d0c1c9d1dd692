/** The two pieces of .NET string behaviour the codec relies on: the decimal
    rendering of an index inside an interpolated string, and
    `String.IsNullOrWhiteSpace` on a non-null message. */
module Text {

  /** `Char.IsWhiteSpace`: the Unicode space, line and paragraph separators,
      plus the control characters U+0009..U+000D and U+0085. */
  predicate IsWhiteSpace(c: char) {
    c in {
      ' ', '\t', '\n', '\U{0B}', '\U{0C}', '\r', '\U{85}', '\U{A0}', '\U{1680}',
      '\U{2000}', '\U{2001}', '\U{2002}', '\U{2003}', '\U{2004}', '\U{2005}',
      '\U{2006}', '\U{2007}', '\U{2008}', '\U{2009}', '\U{200A}',
      '\U{2028}', '\U{2029}', '\U{202F}', '\U{205F}', '\U{3000}'
    }
  }

  /** `String.IsNullOrWhiteSpace` on a string that is not null: true of the
      empty string and of every string made only of white space. */
  predicate IsBlank(s: string) {
    forall i :: 0 <= i < |s| ==> IsWhiteSpace(s[i])
  }

  predicate IsDigits(s: string) {
    forall i :: 0 <= i < |s| ==> '0' <= s[i] <= '9'
  }

  function DigitChar(d: nat): (c: char)
    requires d < 10
    ensures '0' <= c <= '9'
  {
    ['0', '1', '2', '3', '4', '5', '6', '7', '8', '9'][d]
  }

  function DigitValue(c: char): (d: nat)
    requires '0' <= c <= '9'
    ensures d < 10
  {
    (c as int) - ('0' as int)
  }

  /** How `{index}` renders a non-negative integer: its decimal digits,
      most significant first, with no leading zero. */
  function Decimal(n: nat): (s: string)
    ensures |s| > 0 && IsDigits(s)
    ensures s[0] == '0' ==> n == 0
  {
    if n < 10 then [DigitChar(n)] else Decimal(n / 10) + [DigitChar(n % 10)]
  }

  /** Reads a string of decimal digits back as a number. */
  function ParseDecimal(s: string): nat
    requires IsDigits(s)
  {
    if s == [] then 0 else 10 * ParseDecimal(s[..|s| - 1]) + DigitValue(s[|s| - 1])
  }

  /** The rendered index names the index: it reads back as the number it
      was made from, so no two indices render alike. */
  lemma {:induction false} DecimalRoundTrip(n: nat)
    ensures ParseDecimal(Decimal(n)) == n
  {
    var s := Decimal(n);
    if n < 10 {
      assert s[..0] == [];
    } else {
      DecimalRoundTrip(n / 10);
      assert s[..|s| - 1] == Decimal(n / 10);
    }
  }

  /** An interpolated message that starts with a letter is not blank. */
  lemma NotBlankByFirst(s: string)
    requires |s| > 0 && 'a' <= s[0] <= 'z'
    ensures !IsBlank(s)
  {
  }
}
