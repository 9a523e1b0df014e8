/** Decimal text: `to_string` on counts and `parse::<u64>` on the stored attribute. */
module Decimal {
  import opened Wrappers

  const U64_LIMIT := 0x1_0000_0000_0000_0000

  function DigitChar(d: nat): char
    requires d < 10
  {
    '0' + d as char
  }

  predicate IsDigit(c: char) {
    '0' <= c <= '9'
  }

  predicate IsNumeral(text: string) {
    forall i :: 0 <= i < |text| ==> IsDigit(text[i])
  }

  function DigitValue(c: char): nat
    requires IsDigit(c)
  {
    c as int - '0' as int
  }

  function ToText(n: nat): string {
    if n < 10 then [DigitChar(n)] else ToText(n / 10) + [DigitChar(n % 10)]
  }

  function Value(text: string): nat
    requires IsNumeral(text)
  {
    if text == "" then 0
    else 10 * Value(text[..|text| - 1]) + DigitValue(text[|text| - 1])
  }

  /** An optional plus sign, then at least one digit and nothing else, below 2^64. */
  function ParseU64(text: string): Option<nat> {
    var digits := if text != "" && text[0] == '+' then text[1..] else text;
    if digits != "" && IsNumeral(digits) && Value(digits) < U64_LIMIT then
      Some(Value(digits))
    else
      None
  }

  /** The text of a number is a nonempty numeral for it, without leading zeros. */
  lemma {:induction false} TextIsNumeral(n: nat)
    ensures ToText(n) != "" && IsNumeral(ToText(n)) && Value(ToText(n)) == n
    ensures ToText(n)[0] == '0' <==> n == 0
  {
    if n < 10 {
      assert ToText(n)[..0] == "";
    } else {
      TextIsNumeral(n / 10);
      var front := ToText(n / 10);
      assert ToText(n)[..|ToText(n)| - 1] == front;
    }
  }

  /** A number without its last `i` decimal digits. */
  function WithoutLast(n: nat, i: nat): nat {
    if i == 0 then n else WithoutLast(n / 10, i - 1)
  }

  /**
   The text in characters: counted from the right, character `i` is the digit of that place, and
   there are as many characters as the number needs.
   */
  lemma {:induction false} TextInDigits(n: nat, i: nat)
    requires i < |ToText(n)|
    ensures ToText(n)[|ToText(n)| - 1 - i] == "0123456789"[WithoutLast(n, i) % 10]
    ensures WithoutLast(n, |ToText(n)|) == 0
    ensures |ToText(n)| > 1 ==> WithoutLast(n, |ToText(n)| - 1) > 0
  {
    DigitChars(n % 10);
    if n >= 10 {
      TextInDigits(n / 10, if i == 0 then 0 else i - 1);
    }
  }

  lemma DigitChars(d: nat)
    requires d < 10
    ensures DigitChar(d) == "0123456789"[d] && DigitValue("0123456789"[d]) == d
  {
  }

  /** A count survives being written and read exactly when it fits in 64 bits. */
  lemma ParseText(n: nat)
    ensures ParseU64(ToText(n)) == if n <= 18_446_744_073_709_551_615 then Some(n) else None
  {
    TextIsNumeral(n);
    assert IsDigit(ToText(n)[0]);
  }

  lemma {:induction false} LeadingZero(text: string)
    requires IsNumeral(text)
    ensures IsNumeral("0" + text) && Value("0" + text) == Value(text)
  {
    var longer := "0" + text;
    if text == "" {
      assert longer[..0] == "";
    } else {
      LeadingZero(text[..|text| - 1]);
      assert longer[..|longer| - 1] == "0" + text[..|text| - 1];
    }
  }

  /** What else is read as a count: a plus sign and leading zeros change nothing, and no other sign is read. */
  lemma ParseForms(text: string)
    requires IsNumeral(text) && text != ""
    ensures ParseU64(text) == if Value(text) <= 18_446_744_073_709_551_615 then Some(Value(text)) else None
    ensures ParseU64("+" + text) == ParseU64(text) && ParseU64("0" + text) == ParseU64(text)
    ensures ParseU64("-" + text) == None && ParseU64("") == None && ParseU64("+") == None
  {
    LeadingZero(text);
    assert IsDigit(text[0]) && !IsDigit('+') && !IsDigit('-');
    assert ("+" + text)[1..] == text;
    assert ("-" + text)[0] == '-' && ("0" + text)[0] == '0';
    assert "+"[1..] == "";
  }

  /** Two numbers with one text are one number. */
  lemma TextIsInjective(a: nat, b: nat)
    ensures ToText(a) == ToText(b) <==> a == b
  {
    TextIsNumeral(a);
    TextIsNumeral(b);
  }
}
