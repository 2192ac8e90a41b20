/** Decimal numerals as digit sequences, most significant digit first. */
module Decimal {
  import opened Wrappers

  type Digit = d: int | 0 <= d < 10

  /** The numeral a number prints as: no leading zero, except for zero itself. */
  function Digits(n: nat): (ds: seq<Digit>)
    ensures |ds| > 0
    decreases n
  {
    if n < 10 then [n] else Digits(n / 10) + [n % 10]
  }

  /** The numeral padded with zeros on the left to at least `width` digits. */
  function Padded(n: nat, width: nat): (ds: seq<Digit>)
    ensures |ds| >= width
  {
    var ds := Digits(n);
    (if |ds| < width then seq(width - |ds|, i => 0) else []) + ds
  }

  /** The number a digit sequence denotes; leading zeros are allowed. */
  function Value(ds: seq<Digit>): (n: nat) {
    if ds == [] then 0 else Value(ds[..|ds| - 1]) * 10 + ds[|ds| - 1]
  }

  lemma {:induction false} ValueOfDigits(n: nat)
    ensures Value(Digits(n)) == n
    decreases n
  {
    if n < 10 {
      assert Value([n]) == Value([]) * 10 + n;
    } else {
      ValueOfDigits(n / 10);
      assert Digits(n)[..|Digits(n)| - 1] == Digits(n / 10);
    }
  }

  lemma {:induction false} ValueOfLeadingZeros(k: nat, ds: seq<Digit>)
    ensures Value(seq(k, i => 0) + ds) == Value(ds)
    decreases k + |ds|
  {
    var zeros: seq<Digit> := seq(k, i => 0);
    if ds != [] {
      assert (zeros + ds)[..k + |ds| - 1] == zeros + ds[..|ds| - 1];
      ValueOfLeadingZeros(k, ds[..|ds| - 1]);
    } else if k > 0 {
      var fewer: seq<Digit> := seq(k - 1, i => 0);
      assert (zeros + ds)[..k - 1] == fewer + [];
      ValueOfLeadingZeros(k - 1, []);
    }
  }

  lemma ValueOfPadded(n: nat, width: nat)
    ensures Value(Padded(n, width)) == n
  {
    ValueOfDigits(n);
    if |Digits(n)| < width {
      ValueOfLeadingZeros(width - |Digits(n)|, Digits(n));
    } else {
      assert [] + Digits(n) == Digits(n);
    }
  }

  lemma {:induction false} DigitsLength(n: nat, width: nat)
    requires width > 0
    ensures |Digits(n)| <= width <==> n < Pow10(width)
    decreases n
  {
    if n >= 10 && width > 1 {
      DigitsLength(n / 10, width - 1);
    } else if n < 10 {
      PowersGrow(width);
    }
  }

  function Pow10(k: nat): (p: nat)
    ensures p > 0
  {
    if k == 0 then 1 else 10 * Pow10(k - 1)
  }

  lemma {:induction false} PowersGrow(k: nat)
    requires k > 0
    ensures Pow10(k) >= 10
  {
    if k > 1 {
      PowersGrow(k - 1);
    }
  }

  /** A field is as wide as asked exactly when the number fits it. */
  lemma PaddedLength(n: nat, width: nat)
    requires width > 0
    ensures |Padded(n, width)| == width <==> n < Pow10(width)
  {
    DigitsLength(n, width);
  }

  // ------------------------------------------------------------------
  // As text.
  // ------------------------------------------------------------------

  function DigitText(ds: seq<Digit>): (s: string)
    ensures |s| == |ds|
    ensures forall i :: 0 <= i < |ds| ==> s[i] == '0' + ds[i] as char
  {
    seq(|ds|, i requires 0 <= i < |ds| => '0' + ds[i] as char)
  }

  /** The number the text's digits denote, if they are all digits. */
  function DecimalValue(s: string): Option<nat> {
    if s == "" then Some(0)
    else
      var n, c := DecimalValue(s[..|s| - 1]), s[|s| - 1];
      if n.None? || !('0' <= c <= '9') then None else Some(10 * n.value + (c as int - '0' as int))
  }

  lemma {:induction false} ValueOfText(ds: seq<Digit>)
    ensures DecimalValue(DigitText(ds)) == Some(Value(ds))
  {
    if ds != [] {
      ValueOfText(ds[..|ds| - 1]);
      assert DigitText(ds)[..|ds| - 1] == DigitText(ds[..|ds| - 1]);
    }
  }

  lemma FieldReads(n: nat, width: nat)
    ensures DecimalValue(DigitText(Padded(n, width))) == Some(n)
  {
    ValueOfText(Padded(n, width));
    ValueOfPadded(n, width);
  }
}
