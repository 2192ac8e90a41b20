/** Octets as lowercase hexadecimal text, and the lenient reading of it. */
module Hex {
  import opened Bytes
  import opened Wrappers

  function NibbleChar(n: nat): (c: char)
    requires n < 16
    ensures LowerHex(c) && HexValue(c) == Some(n)
  {
    if n < 10 then '0' + n as char else 'a' + (n - 10) as char
  }

  predicate LowerHex(c: char) {
    '0' <= c <= '9' || 'a' <= c <= 'f'
  }

  function HexValue(c: char): (r: Option<nat>)
    ensures r.Some? ==> r.value < 16
  {
    if '0' <= c <= '9' then Some(c as int - '0' as int)
    else if 'a' <= c <= 'f' then Some(c as int - 'a' as int + 10)
    else if 'A' <= c <= 'F' then Some(c as int - 'A' as int + 10)
    else None
  }

  function Encode(bytes: seq<byte>): (s: string)
    ensures |s| == 2 * |bytes|
    ensures forall i :: 0 <= i < |s| ==> LowerHex(s[i])
  {
    if bytes == [] then ""
    else
      var b: int := bytes[0];
      [NibbleChar(b / 16), NibbleChar(b % 16)] + Encode(bytes[1..])
  }

  /** Base-16 parsing of two characters; a plus sign may stand for the first. */
  function PairValue(hi: char, lo: char): (r: Option<byte>) {
    var low := HexValue(lo);
    if low.None? then None
    else if hi == '+' then Some(low.value)
    else if HexValue(hi).None? then None
    else Some(16 * HexValue(hi).value + low.value)
  }

  function Decode(s: string): Option<seq<byte>> {
    if |s| % 2 != 0 then None
    else if s == "" then Some([])
    else
      var first, rest := PairValue(s[0], s[1]), Decode(s[2..]);
      if first.None? || rest.None? then None else Some([first.value] + rest.value)
  }

  lemma {:induction false} DecodeUndoesEncode(bytes: seq<byte>)
    ensures Decode(Encode(bytes)) == Some(bytes)
  {
    if bytes != [] {
      DecodeUndoesEncode(bytes[1..]);
      var b: int := bytes[0];
      assert PairValue(NibbleChar(b / 16), NibbleChar(b % 16)) == Some(bytes[0]);
      assert Encode(bytes)[2..] == Encode(bytes[1..]);
      assert [bytes[0]] + bytes[1..] == bytes;
    }
  }

  /** The other direction holds for canonical text only: decoding forgets
      upper case and plus signs. */
  lemma {:induction false} EncodeUndoesDecode(s: string)
    requires Decode(s).Some?
    ensures Encode(Decode(s).value) == s <==> forall i :: 0 <= i < |s| ==> LowerHex(s[i])
    decreases |s|
  {
    if s != "" {
      var b, rest := PairValue(s[0], s[1]).value, Decode(s[2..]).value;
      EncodeUndoesDecode(s[2..]);
      assert Decode(s).value[1..] == rest;
      var text := Encode(Decode(s).value);
      assert text[0] == NibbleChar(b / 16) && text[1] == NibbleChar(b % 16) && text[2..] == Encode(rest);
      assert text == s <==> text[0] == s[0] && text[1] == s[1] && text[2..] == s[2..];
      assert (forall i :: 0 <= i < |s| ==> LowerHex(s[i]))
          <==> LowerHex(s[0]) && LowerHex(s[1]) && forall i :: 0 <= i < |s[2..]| ==> LowerHex(s[2..][i]) by {
        TailLowerHex(s);
      }
      PairReprints(s[0], s[1]);
    }
  }

  lemma {:induction false} LowerHexDecodes(s: string)
    requires |s| % 2 == 0 && forall i :: 0 <= i < |s| ==> LowerHex(s[i])
    ensures Decode(s).Some? && |Decode(s).value| == |s| / 2
  {
    if s != "" {
      LowerHexDecodes(s[2..]);
    }
  }

  lemma TailLowerHex(s: string)
    requires |s| >= 2
    ensures (forall i :: 0 <= i < |s| ==> LowerHex(s[i]))
        <==> LowerHex(s[0]) && LowerHex(s[1]) && forall i :: 0 <= i < |s[2..]| ==> LowerHex(s[2..][i])
  {
    if forall i :: 0 <= i < |s[2..]| ==> LowerHex(s[2..][i]) {
      assert forall i :: 2 <= i < |s| ==> s[i] == s[2..][i - 2];
    }
  }

  lemma PairReprints(hi: char, lo: char)
    requires PairValue(hi, lo).Some?
    ensures var b: int := PairValue(hi, lo).value;
      NibbleChar(b / 16) == hi && NibbleChar(b % 16) == lo <==> LowerHex(hi) && LowerHex(lo)
  {
  }

  // ------------------------------------------------------------------
  // The same text as UTF-8 octets, which are what is sliced into pairs.
  // ------------------------------------------------------------------

  predicate Continues(b: byte) {
    0x80 <= b < 0xC0
  }

  function Utf8Char(c: char): (r: seq<byte>)
    ensures 1 <= |r| <= 4 && (|r| == 1 <==> c as int < 0x80) && (|r| == 1 ==> r[0] == c as int)
    ensures !Continues(r[0]) && forall i :: 1 <= i < |r| ==> Continues(r[i])
  {
    var n := c as int;
    if n < 0x80 then [n]
    else if n < 0x800 then [0xC0 + n / 64, 0x80 + n % 64]
    else if n < 0x1_0000 then [0xE0 + n / 4096, 0x80 + n / 64 % 64, 0x80 + n % 64]
    else [0xF0 + n / 262144, 0x80 + n / 4096 % 64, 0x80 + n / 64 % 64, 0x80 + n % 64]
  }

  /** As section 3 of RFC 3629 lays the code point out over one to four octets. */
  lemma Utf8CharHoldsTheCodePoint(c: char)
    ensures var n, r := c as int, Utf8Char(c);
      && (n < 0x80 ==> r == [n])
      && (0x80 <= n < 0x800 ==>
            && |r| == 2 && 0xC0 <= r[0] < 0xE0 && 0x80 <= r[1] < 0xC0
            && n == 64 * (r[0] - 0xC0 as int) + (r[1] - 0x80 as int))
      && (0x800 <= n < 0x1_0000 ==>
            && |r| == 3 && 0xE0 <= r[0] < 0xF0 && 0x80 <= r[1] < 0xC0 && 0x80 <= r[2] < 0xC0
            && n == 4096 * (r[0] - 0xE0 as int) + 64 * (r[1] - 0x80 as int) + (r[2] - 0x80 as int))
      && (0x1_0000 <= n ==>
            && |r| == 4 && 0xF0 <= r[0] < 0xF8 && 0x80 <= r[1] < 0xC0 && 0x80 <= r[2] < 0xC0 && 0x80 <= r[3] < 0xC0
            && n == 262144 * (r[0] - 0xF0 as int) + 4096 * (r[1] - 0x80 as int) + 64 * (r[2] - 0x80 as int)
                    + (r[3] - 0x80 as int))
  {
    var n := c as int;
    assert n / 4096 == n / 64 / 64 && n / 262144 == n / 64 / 64 / 64;
  }

  function Utf8(s: string): seq<byte> {
    if s == "" then [] else Utf8Char(s[0]) + Utf8(s[1..])
  }

  /** Slicing inside a character ends the program. */
  type Reading = Outcome<Option<seq<byte>>>

  function OctetPair(hi: byte, lo: byte): Option<byte> {
    if hi < 0x80 && lo < 0x80 then PairValue(hi as char, lo as char) else None
  }

  function DecodeOctets(octets: seq<byte>): Reading {
    if |octets| % 2 != 0 then Answers(None) else DecodePairs(octets)
  }

  function Prepend(b: byte, rest: Reading): Reading {
    if rest.Panics? || rest.value.None? then rest else Answers(Some([b] + rest.value.value))
  }

  /** Pair after pair, up to the first that is no number. */
  function DecodePairs(octets: seq<byte>): Reading
    requires |octets| % 2 == 0
  {
    if octets == [] then Answers(Some([]))
    else if Continues(octets[0]) || (|octets| > 2 && Continues(octets[2])) then Panics
    else
      var first := OctetPair(octets[0], octets[1]);
      if first.None? then Answers(None)
      else
        Prepend(first.value, DecodePairs(octets[2..]))
  }

  /** The text begins with `k` pairs of digits. */
  ghost predicate BeginsWithPairs(s: string, k: nat) {
    2 * k <= |s| && forall i :: 0 <= i < k ==> GoodPair(s, i)
  }

  ghost predicate GoodPair(s: string, i: nat)
    requires 2 * i + 1 < |s|
  {
    PairValue(s[2 * i], s[2 * i + 1]).Some?
  }

  /** From `k` on a pair of octets ends inside a character: one that takes three or
      four, or one that takes several after one that takes one. */
  ghost predicate StraddlesAt(s: string, k: nat) {
    || (k < |s| && |Utf8Char(s[k])| >= 3)
    || (k + 1 < |s| && |Utf8Char(s[k])| == 1 && |Utf8Char(s[k + 1])| > 1)
  }

  ghost predicate Straddles(s: string) {
    exists k: nat :: BeginsWithPairs(s, k) && StraddlesAt(s, 2 * k)
  }

  lemma StraddlesFrom(s: string, k: nat)
    requires BeginsWithPairs(s, k) && StraddlesAt(s, 2 * k)
    ensures Straddles(s)
  {
  }

  lemma OnePairLess(s: string, k: nat)
    requires |s| >= 2 && GoodPair(s, 0) && k > 0
    ensures BeginsWithPairs(s, k) <==> BeginsWithPairs(s[2..], k - 1)
    ensures StraddlesAt(s, 2 * k) <==> StraddlesAt(s[2..], 2 * (k - 1))
  {
    hide PairValue, Utf8Char;
    var rest := s[2..];
    if BeginsWithPairs(s, k) {
      forall i | 0 <= i < k - 1 ensures GoodPair(rest, i) {
        assert GoodPair(s, i + 1);
      }
    }
    if BeginsWithPairs(rest, k - 1) {
      forall i | 0 <= i < k ensures GoodPair(s, i) {
        assert i > 0 ==> GoodPair(rest, i - 1);
      }
    }
  }

  lemma StraddlesLater(s: string)
    requires |s| >= 2 && GoodPair(s, 0)
    ensures Straddles(s) <==> Straddles(s[2..])
  {
    hide PairValue, Utf8Char, BeginsWithPairs, StraddlesAt, GoodPair;
    if k: nat :| BeginsWithPairs(s, k) && StraddlesAt(s, 2 * k) {
      NotYet(s);
      OnePairLess(s, k);
      StraddlesFrom(s[2..], k - 1);
    }
    if k: nat :| BeginsWithPairs(s[2..], k) && StraddlesAt(s[2..], 2 * k) {
      OnePairLess(s, k + 1);
      StraddlesFrom(s, k + 1);
    }
  }

  lemma NotYet(s: string)
    requires |s| >= 2 && GoodPair(s, 0)
    ensures !StraddlesAt(s, 0)
  {
    DigitsTakeOneOctet(s[0], s[1]);
  }

  lemma DigitsTakeOneOctet(hi: char, lo: char)
    requires PairValue(hi, lo).Some?
    ensures Utf8Char(hi) == [hi as int] && Utf8Char(lo) == [lo as int]
  {
  }

  lemma {:induction false} DecodedTextIsAscii(s: string)
    requires Decode(s).Some?
    ensures |Utf8(s)| == |s|
    decreases |s|
  {
    if s != "" {
      DigitsTakeOneOctet(s[0], s[1]);
      DecodedTextIsAscii(s[2..]);
      assert s[1..][1..] == s[2..];
    }
  }

  lemma {:induction false} DecodePairsOfText(s: string)
    requires |Utf8(s)| % 2 == 0
    ensures DecodePairs(Utf8(s)) == if Straddles(s) then Panics else Answers(Decode(s))
    decreases |s|
  {
    hide PairValue, Utf8Char, Utf8, Straddles, DecodePairs, Decode;
    if s == "" {
      NothingToDecode();
    } else if |s| == 1 || PairValue(s[0], s[1]).None? {
      NoPairsToPass(s);
      FirstPair(s);
    } else {
      PassPair(s);
      StraddlesLater(s);
      DecodePairsOfText(s[2..]);
    }
  }

  lemma NothingToDecode()
    ensures Utf8("") == [] && DecodePairs([]) == Answers(Some([])) && Decode("") == Some([]) && !Straddles("")
  {
  }

  lemma PassOctets(hi: char, lo: char, rest: seq<byte>)
    requires PairValue(hi, lo).Some? && |rest| % 2 == 0 && (rest != [] ==> !Continues(rest[0]))
    ensures hi as int < 0x80 && lo as int < 0x80
    ensures DecodePairs([hi as int, lo as int] + rest) == Prepend(PairValue(hi, lo).value, DecodePairs(rest))
  {
    hide PairValue;
    DigitsTakeOneOctet(hi, lo);
    var octets: seq<byte> := [hi as int, lo as int] + rest;
    assert octets[2..] == rest;
  }

  lemma PassCharacters(s: string)
    requires |s| >= 2 && PairValue(s[0], s[1]).Some?
    ensures Answers(Decode(s)) == Prepend(PairValue(s[0], s[1]).value, Answers(Decode(s[2..])))
  {
    hide PairValue, HexValue;
    var rest := s[2..];
    assert |s| % 2 == |rest| % 2;
    if |s| % 2 != 0 {
      assert Decode(s) == None && Decode(rest) == None;
    } else {
      assert Decode(s) == if Decode(rest).None? then None else Some([PairValue(s[0], s[1]).value] + Decode(rest).value);
    }
  }

  lemma Utf8OfPair(s: string)
    requires |s| >= 2 && PairValue(s[0], s[1]).Some?
    ensures s[0] as int < 0x80 && s[1] as int < 0x80 && Utf8(s) == [s[0] as int, s[1] as int] + Utf8(s[2..])
  {
    hide PairValue;
    DigitsTakeOneOctet(s[0], s[1]);
    assert s[1..][1..] == s[2..];
  }

  /** A pair of digits is passed over by both readings alike. */
  lemma PassPair(s: string)
    requires |s| >= 2 && PairValue(s[0], s[1]).Some? && |Utf8(s)| % 2 == 0
    ensures |Utf8(s[2..])| % 2 == 0
    ensures DecodePairs(Utf8(s)) == Prepend(PairValue(s[0], s[1]).value, DecodePairs(Utf8(s[2..])))
    ensures Answers(Decode(s)) == Prepend(PairValue(s[0], s[1]).value, Answers(Decode(s[2..])))
  {
    hide PairValue, Utf8, DecodePairs, Decode, Prepend;
    Utf8OfPair(s);
    StartsClean(s[2..]);
    PassOctets(s[0], s[1], Utf8(s[2..]));
    PassCharacters(s);
  }

  lemma StartsClean(s: string)
    ensures s != "" ==> Utf8(s) != []
    ensures Utf8(s) != [] ==> !Continues(Utf8(s)[0])
  {
  }

  lemma NoPairsToPass(s: string)
    requires s != "" && (|s| == 1 || PairValue(s[0], s[1]).None?)
    ensures Straddles(s) <==> StraddlesAt(s, 0)
  {
    hide PairValue, Utf8Char;
    assert BeginsWithPairs(s, 0);
    assert |s| > 1 ==> !GoodPair(s, 0);
  }

  lemma FirstPair(s: string)
    requires s != "" && (|s| == 1 || PairValue(s[0], s[1]).None?) && |Utf8(s)| % 2 == 0
    ensures Decode(s) == None
    ensures DecodePairs(Utf8(s)) == if StraddlesAt(s, 0) then Panics else Answers(None)
  {
    hide PairValue, Utf8Char;
    var octets := Utf8(s);
    assert octets[..|Utf8Char(s[0])|] == Utf8Char(s[0]);
    assert octets[|Utf8Char(s[0])|..] == Utf8(s[1..]);
    if |s| > 1 {
      StartsClean(s[1..]);
      assert Utf8(s[1..])[..|Utf8Char(s[1])|] == Utf8Char(s[1]);
    }
  }

  /** Reading a text fails hard exactly when it takes an even number of octets and,
      after pairs of digits only, has a pair that ends inside a character. Any
      other text is read as its characters are. */
  lemma DecodePanicsExactly(s: string)
    ensures DecodeOctets(Utf8(s)) ==
            if |Utf8(s)| % 2 == 0 && Straddles(s) then Panics else Answers(Decode(s))
  {
    hide Utf8, Decode, DecodePairs, Straddles;
    if |Utf8(s)| % 2 == 0 {
      DecodePairsOfText(s);
    } else {
      EvenWhenDecoded(s);
    }
  }

  lemma EvenWhenDecoded(s: string)
    requires |Utf8(s)| % 2 != 0
    ensures Decode(s).None?
  {
    if Decode(s).Some? {
      DecodedTextIsAscii(s);
    }
  }
}
