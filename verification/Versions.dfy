/** Package versions and their precedence. */
module Versions {
  import opened Decimal
  import opened Sorting
  import opened Texts
  import opened Wrappers

  /** Versions are equal when all their parts are, label and build text included. */
  datatype Version = Version(major: nat, minor: nat, patch: nat, pre: Option<string>, build: Option<string>)

  const U64: nat := 0x1_0000_0000_0000_0000

  // ------------------------------------------------------------------
  // Pre-release labels.
  // ------------------------------------------------------------------

  /** The 64-bit number a label part spells, if it does: a plus sign and leading
      zeros are read over. */
  function Number(part: string): Option<nat> {
    var digits := if part != "" && part[0] == '+' then part[1..] else part;
    var n := DecimalValue(digits);
    if digits == "" || n.None? || n.value >= U64 then None else n
  }

  /** Numbers come by value and before text, text by its octets. */
  predicate PartBelow(a: string, b: string) {
    match (Number(a), Number(b))
    case (Some(m), Some(n)) => m < n
    case (Some(_), None) => true
    case (None, Some(_)) => false
    case (None, None) => Below(a, b)
  }

  /** The same text, or two spellings of one number. */
  predicate Alike(a: string, b: string) {
    a == b || (Number(a).Some? && Number(a) == Number(b))
  }

  predicate LabelBelow(a: seq<string>, b: seq<string>) {
    b != [] && (a == [] || PartBelow(a[0], b[0]) || (Alike(a[0], b[0]) && LabelBelow(a[1..], b[1..])))
  }

  predicate LabelsAlike(a: seq<string>, b: seq<string>) {
    |a| == |b| && forall i :: 0 <= i < |a| ==> Alike(a[i], b[i])
  }

  lemma PartOrder(a: string, b: string, c: string)
    ensures !PartBelow(a, a)
    ensures PartBelow(a, b) && PartBelow(b, c) ==> PartBelow(a, c)
    ensures Alike(a, b) <==> !PartBelow(a, b) && !PartBelow(b, a)
  {
    hide Below, Number;
    BelowIsStrict(a);
    BelowIsTotal(a, b);
    if Below(a, b) && Below(b, c) {
      BelowIsTransitive(a, b, c);
    }
  }

  lemma AlikeParts(a: string, b: string, c: string)
    requires Alike(a, b)
    ensures PartBelow(a, c) <==> PartBelow(b, c)
    ensures PartBelow(c, a) <==> PartBelow(c, b)
    ensures Alike(a, c) <==> Alike(b, c)
  {
    hide Below, Number;
  }

  lemma {:induction false} LabelOrder(a: seq<string>, b: seq<string>, c: seq<string>)
    ensures !LabelBelow(a, a)
    ensures LabelBelow(a, b) && LabelBelow(b, c) ==> LabelBelow(a, c)
    ensures LabelsAlike(a, b) <==> !LabelBelow(a, b) && !LabelBelow(b, a)
  {
    hide PartBelow, Alike;
    if a != [] {
      PartOrder(a[0], a[0], a[0]);
      LabelOrder(a[1..], if b != [] then b[1..] else [], if c != [] then c[1..] else []);
      if b != [] {
        PartOrder(a[0], b[0], a[0]);
        PartOrder(b[0], a[0], b[0]);
        assert a == [a[0]] + a[1..] && b == [b[0]] + b[1..];
        if c != [] {
          PartOrder(a[0], b[0], c[0]);
          if Alike(a[0], b[0]) {
            AlikeParts(a[0], b[0], c[0]);
          }
          PartOrder(b[0], c[0], b[0]);
          if Alike(b[0], c[0]) {
            PartOrder(c[0], b[0], c[0]);
            AlikeParts(b[0], c[0], a[0]);
          }
        }
      }
    }
  }

  lemma {:induction false} AlikeLabels(a: seq<string>, b: seq<string>, c: seq<string>)
    requires LabelsAlike(a, b)
    ensures LabelBelow(a, c) <==> LabelBelow(b, c)
    ensures LabelBelow(c, a) <==> LabelBelow(c, b)
  {
    hide PartBelow, Alike;
    if a != [] && c != [] {
      AlikeLabels(a[1..], b[1..], c[1..]);
      AlikeParts(a[0], b[0], c[0]);
      AlikeSymmetric(a[0], c[0]);
      AlikeSymmetric(b[0], c[0]);
    }
  }

  lemma AlikeSymmetric(a: string, b: string)
    ensures Alike(a, b) <==> Alike(b, a)
  {
    hide Number;
  }

  // ------------------------------------------------------------------
  // Versions.
  // ------------------------------------------------------------------

  function Parts(pre: string): seq<string> {
    Split(pre, ".")
  }

  /** A version without a label comes after every labelled one. */
  predicate PreBelow(a: Option<string>, b: Option<string>) {
    a.Some? && (b.None? || LabelBelow(Parts(a.value), Parts(b.value)))
  }

  /** Build metadata takes no part. */
  predicate Precedes(a: Version, b: Version) {
    || a.major < b.major
    || (a.major == b.major && a.minor < b.minor)
    || (a.major == b.major && a.minor == b.minor && a.patch < b.patch)
    || (a.major == b.major && a.minor == b.minor && a.patch == b.patch && PreBelow(a.pre, b.pre))
  }

  /** Neither precedes the other. */
  predicate Tied(a: Version, b: Version) {
    !Precedes(a, b) && !Precedes(b, a)
  }

  /** Versions are tied exactly when they agree but for build metadata and for how
      the numbers in their labels are spelled. */
  lemma TiedExactly(a: Version, b: Version)
    ensures Tied(a, b) <==>
            && a.major == b.major && a.minor == b.minor && a.patch == b.patch
            && (a.pre.Some? <==> b.pre.Some?)
            && (a.pre.Some? ==> LabelsAlike(Parts(a.pre.value), Parts(b.pre.value)))
  {
    hide LabelBelow, LabelsAlike, Parts;
    if a.pre.Some? && b.pre.Some? {
      LabelOrder(Parts(a.pre.value), Parts(b.pre.value), []);
    }
  }

  lemma VersionOrder(a: Version, b: Version, c: Version)
    ensures !Precedes(a, a)
    ensures Precedes(a, b) && Precedes(b, c) ==> Precedes(a, c)
  {
    hide LabelBelow, LabelsAlike, Parts;
    var x := if a.pre.Some? then Parts(a.pre.value) else [];
    var y := if b.pre.Some? then Parts(b.pre.value) else [];
    var z := if c.pre.Some? then Parts(c.pre.value) else [];
    LabelOrder(x, y, z);
  }

  lemma TiedMeansAlike(a: Version, b: Version, c: Version)
    requires Tied(a, b)
    ensures Precedes(a, c) <==> Precedes(b, c)
    ensures Precedes(c, a) <==> Precedes(c, b)
  {
    hide LabelBelow, LabelsAlike, Parts;
    TiedExactly(a, b);
    if a.pre.Some? && c.pre.Some? {
      AlikeLabels(Parts(a.pre.value), Parts(b.pre.value), Parts(c.pre.value));
    }
  }

  lemma Precedence()
    ensures WeakOrder(Precedes)
  {
    hide Precedes;
    forall a, b, c
      ensures !Precedes(a, a)
      ensures Precedes(a, b) && Precedes(b, c) ==> Precedes(a, c)
      ensures Precedes(a, c) ==> Precedes(a, b) || Precedes(b, c)
    {
      VersionOrder(a, b, c);
      VersionOrder(b, a, c);
      if Tied(a, b) {
        TiedMeansAlike(a, b, c);
      }
    }
  }

  /** Builds of one release are tied. */
  lemma BuildsAreTied(v: Version, build: Option<string>)
    ensures Tied(v, v.(build := build))
  {
    VersionOrder(v, v, v);
  }

  /** So are labels `1` and `01`. */
  lemma LeadingZerosAreTied(major: nat, minor: nat, patch: nat, build: Option<string>)
    ensures Tied(Version(major, minor, patch, Some("1"), build), Version(major, minor, patch, Some("01"), build))
  {
    assert Parts("1") == ["1"] && Parts("01") == ["01"] by {
      OnePart("1");
      OnePart("01");
    }
    assert "1"[..0] == "" && "01"[..1] == "0" && "0"[..0] == "";
    assert DecimalValue("") == Some(0) && DecimalValue("0") == Some(0);
    assert DecimalValue("1") == Some(1) && DecimalValue("01") == Some(1);
    TiedExactly(Version(major, minor, patch, Some("1"), build), Version(major, minor, patch, Some("01"), build));
  }

  // ------------------------------------------------------------------
  // Precedence, told from the texts alone.
  // ------------------------------------------------------------------

  /** A number as a label part may write it. */
  function Spelled(plus: bool, zeros: nat, n: nat): string {
    (if plus then "+" else "") + seq(zeros, i => '0') + DigitText(Digits(n))
  }

  ghost predicate Spells(part: string, n: nat) {
    n < U64 && exists plus, zeros :: part == Spelled(plus, zeros, n)
  }

  ghost predicate IsText(part: string) {
    forall n :: !Spells(part, n)
  }

  lemma NumeralIsRead(zeros: nat, n: nat)
    ensures var s := seq(zeros, i => '0') + DigitText(Digits(n));
      DecimalValue(s) == Some(n) && s != "" && s[0] != '+'
  {
    hide DecimalValue, Digits, Value;
    var ds := seq<Digit>(zeros, i => 0) + Digits(n);
    ValueOfText(ds);
    ValueOfLeadingZeros(zeros, Digits(n));
    ValueOfDigits(n);
    assert DigitText(ds) == seq(zeros, i => '0') + DigitText(Digits(n));
  }

  lemma SpelledIsRead(plus: bool, zeros: nat, n: nat)
    requires n < U64
    ensures Number(Spelled(plus, zeros, n)) == Some(n)
  {
    hide DecimalValue, Digits, DigitText;
    NumeralIsRead(zeros, n);
    var part, s := Spelled(plus, zeros, n), seq(zeros, i => '0') + DigitText(Digits(n));
    assert part == (if plus then "+" else "") + s;
    assert plus ==> part[1..] == s;
    assert !plus ==> part == s;
  }

  /** Digits are zeros and then the numeral of their value. */
  lemma {:induction false} DigitsAreSpelled(s: string) returns (zeros: nat)
    requires s != "" && DecimalValue(s).Some?
    ensures s == Spelled(false, zeros, DecimalValue(s).value)
  {
    var init, c := s[..|s| - 1], s[|s| - 1];
    var d: Digit := c as int - '0' as int;
    assert s == init + [c] && DigitText([d]) == [c];
    if init == "" {
      zeros := 0;
    } else {
      var before := DigitsAreSpelled(init);
      var m, n := DecimalValue(init).value, DecimalValue(s).value;
      assert n == 10 * m + d;
      if m == 0 {
        zeros := before + 1;
        assert DigitText(Digits(0)) == "0";
      } else {
        zeros := before;
        assert n / 10 == m && n % 10 == d;
        assert DigitText(Digits(m) + [d]) == DigitText(Digits(m)) + [c];
      }
    }
  }

  /** A part is read as a number exactly when it spells it. */
  lemma NumberExactly(part: string, n: nat)
    ensures Number(part) == Some(n) <==> Spells(part, n)
  {
    hide DecimalValue, Digits, DigitText;
    if Number(part) == Some(n) {
      var plus := part[0] == '+';
      var zeros := DigitsAreSpelled(if plus then part[1..] else part);
      assert part == Spelled(plus, zeros, n);
    }
    if Spells(part, n) {
      var plus, zeros: nat :| part == Spelled(plus, zeros, n);
      SpelledIsRead(plus, zeros, n);
    }
  }

  lemma TextIsNoNumber(part: string)
    ensures IsText(part) <==> Number(part).None?
  {
    hide Number, Spells;
    forall n: nat ensures Number(part) == Some(n) <==> Spells(part, n) {
      NumberExactly(part, n);
    }
    assert Number(part).Some? ==> Spells(part, Number(part).value);
  }

  /** How two parts of a label compare: numbers by value, a number before text,
      text by its first different character. */
  lemma PartsDecide(a: string, b: string)
    ensures forall m: nat, n: nat :: Spells(a, m) && Spells(b, n) ==> (PartBelow(a, b) <==> m < n)
    ensures !IsText(a) && IsText(b) ==> PartBelow(a, b) && !PartBelow(b, a)
    ensures IsText(a) && IsText(b) ==> (PartBelow(a, b) <==> exists i :: DiffersFirst(a, b, i))
    ensures Alike(a, b) <==> a == b || exists n :: Spells(a, n) && Spells(b, n)
  {
    hide Number, Spells, Below, IsText, DiffersFirst;
    forall n: nat ensures Number(a) == Some(n) <==> Spells(a, n) {
      NumberExactly(a, n);
    }
    forall n: nat ensures Number(b) == Some(n) <==> Spells(b, n) {
      NumberExactly(b, n);
    }
    TextIsNoNumber(a);
    TextIsNoNumber(b);
    BelowExactly(a, b);
    assert Number(a).Some? ==> Spells(a, Number(a).value);
  }

  /** The labels are alike before part `i`, where `a` ends or has the lower part. */
  ghost predicate LabelsPart(a: seq<string>, b: seq<string>, i: nat) {
    && i <= |a| && i < |b| && (forall k :: 0 <= k < i ==> Alike(a[k], b[k]))
    && (i == |a| || PartBelow(a[i], b[i]))
  }

  lemma {:induction false} LabelsDecide(a: seq<string>, b: seq<string>)
    ensures LabelBelow(a, b) <==> exists i :: LabelsPart(a, b, i)
  {
    hide PartBelow, Alike;
    if a != [] && b != [] {
      LabelsDecide(a[1..], b[1..]);
      if i: nat :| LabelsPart(a[1..], b[1..], i) {
        if Alike(a[0], b[0]) {
          assert forall k :: 0 < k < i + 1 ==> a[k] == a[1..][k - 1] && b[k] == b[1..][k - 1];
          assert LabelsPart(a, b, i + 1);
        }
      }
      if i: nat :| i > 0 && LabelsPart(a, b, i) {
        assert LabelsPart(a[1..], b[1..], i - 1);
      }
      assert PartBelow(a[0], b[0]) <==> LabelsPart(a, b, 0);
    } else {
      assert b != [] ==> LabelsPart(a, b, 0);
    }
  }

  /** A label's parts are what lies between its dots. */
  lemma LabelParts(pre: string, parts: seq<string>)
    ensures Parts(pre) == parts <==>
            parts != [] && Join(parts, ".") == pre && forall i :: 0 <= i < |parts| ==> '.' !in parts[i]
  {
    hide Split, Join;
    SplitExactly(pre, '.', parts);
  }

  ghost predicate SameRelease(a: Version, b: Version) {
    a.major == b.major && a.minor == b.minor && a.patch == b.patch
  }

  /** The first of the numbers that differs decides. Of one release, a labelled
      version comes before the unlabelled, and labels decide between themselves. */
  lemma FirstDifferenceDecides(a: Version, b: Version)
    ensures a.major != b.major ==> (Precedes(a, b) <==> a.major < b.major)
    ensures a.major == b.major && a.minor != b.minor ==> (Precedes(a, b) <==> a.minor < b.minor)
    ensures a.major == b.major && a.minor == b.minor && a.patch != b.patch ==> (Precedes(a, b) <==> a.patch < b.patch)
    ensures SameRelease(a, b) && a.pre.Some? && b.pre.None? ==> Precedes(a, b) && !Precedes(b, a)
    ensures SameRelease(a, b) && a.pre.None? && b.pre.None? ==> !Precedes(a, b)
    ensures SameRelease(a, b) && a.pre.Some? && b.pre.Some? ==>
              (Precedes(a, b) <==> exists i :: LabelsPart(Parts(a.pre.value), Parts(b.pre.value), i))
  {
    hide LabelBelow, LabelsPart, Parts;
    if a.pre.Some? && b.pre.Some? {
      LabelsDecide(Parts(a.pre.value), Parts(b.pre.value));
    }
  }
}
