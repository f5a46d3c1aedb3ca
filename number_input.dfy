/** The text a range control exchanges with the metronome: `String(bpm)` is
    what the control shows for the tempo it is given, and `Number(text)` turns
    the control's text back into the tempo `handleBpmChange` stores. */
module NumberInput {

  predicate IsDigit(c: char)
  {
    '0' <= c <= '9'
  }

  predicate AllDigits(s: string)
  {
    forall i :: 0 <= i < |s| ==> IsDigit(s[i])
  }

  /** JavaScript's `Number(s)` on a string of decimal digits: its decimal
      value, leading zeros ignored, and 0 for the empty string. */
  function DigitsValue(s: string): (v: nat)
    requires AllDigits(s)
    ensures v == 0 <==> forall i :: 0 <= i < |s| ==> s[i] == '0'
    decreases |s|
  {
    if s == [] then 0
    else DigitsValue(s[..|s| - 1]) * 10 + (s[|s| - 1] as int - '0' as int)
  }

  /** `Number` ignores a leading zero. */
  lemma {:induction false} LeadingZeroIgnored(s: string)
    requires AllDigits(s) && |s| > 0 && s[0] == '0'
    ensures DigitsValue(s) == DigitsValue(s[1..])
    decreases |s|
  {
    if |s| > 1 {
      var init := s[..|s| - 1];
      LeadingZeroIgnored(init);
      assert init[1..] == s[1..][..|s| - 2];
    }
  }

  /** JavaScript's `String(n)` for a non-negative integer: its decimal digits,
      at least one and without a leading zero. */
  function DecimalText(n: nat): (s: string)
    ensures |s| >= 1 && AllDigits(s)
    ensures s[0] == '0' ==> n == 0
    decreases n
  {
    if n < 10 then [('0' as int + n) as char]
    else DecimalText(n / 10) + [('0' as int + n % 10) as char]
  }

  /** Converting the text of a tempo back with `Number` yields that tempo. */
  lemma {:induction false} NumberOfDecimalText(n: nat)
    ensures DigitsValue(DecimalText(n)) == n
  {
    if n >= 10 {
      var s := DecimalText(n);
      NumberOfDecimalText(n / 10);
      assert s[..|s| - 1] == DecimalText(n / 10);
    }
  }
}
