/** Octets, little-endian integers and fixed-size records of octets. */
module Bytes {
  import opened Wrappers

  type byte = b: int | 0 <= b < 256

  const U16: nat := 0x1_0000
  const U32: nat := 0x1_0000_0000
  const U64: nat := 0x1_0000_0000_0000_0000

  function ReadU16(bytes: seq<byte>, at: nat): (r: Option<nat>)
    ensures r.Some? <==> at + 2 <= |bytes|
    ensures r.Some? ==> r.value < U16
  {
    if at + 2 <= |bytes| then Some(bytes[at] as int + 256 * bytes[at + 1] as int) else None
  }

  function ReadU32(bytes: seq<byte>, at: nat): (r: Option<nat>)
    ensures r.Some? <==> at + 4 <= |bytes|
    ensures r.Some? ==> r.value < U32
  {
    if at + 4 <= |bytes| then
      Some(bytes[at] as int + 0x100 * bytes[at + 1] as int
           + 0x1_0000 * bytes[at + 2] as int + 0x100_0000 * bytes[at + 3] as int)
    else None
  }

  /** The two's-complement reading of a 32-bit word. */
  function Signed32(n: nat): (i: int)
    requires n < U32
    ensures -0x8000_0000 <= i < 0x8000_0000
  {
    if n < 0x8000_0000 then n else n - U32
  }

  function Unsigned32(i: int): (n: nat)
    requires -0x8000_0000 <= i < 0x8000_0000
    ensures n < U32 && Signed32(n) == i
  {
    if i < 0 then i + U32 else i
  }

  function WriteU16(n: nat): (s: seq<byte>)
    requires n < U16
    ensures |s| == 2
  {
    [n % 256, n / 256]
  }

  function WriteU32(n: nat): (s: seq<byte>)
    requires n < U32
    ensures |s| == 4
  {
    [n % 256, n / 0x100 % 256, n / 0x1_0000 % 256, n / 0x100_0000]
  }

  lemma ReadWrittenU16(bytes: seq<byte>, at: nat, n: nat)
    requires n < U16 && at + 2 <= |bytes| && bytes[at..at + 2] == WriteU16(n)
    ensures ReadU16(bytes, at) == Some(n)
  {
    assert bytes[at] == bytes[at..at + 2][0] && bytes[at + 1] == bytes[at..at + 2][1];
  }

  lemma ReadWrittenU32(bytes: seq<byte>, at: nat, n: nat)
    requires n < U32 && at + 4 <= |bytes| && bytes[at..at + 4] == WriteU32(n)
    ensures ReadU32(bytes, at) == Some(n)
  {
    var word := bytes[at..at + 4];
    assert bytes[at] == word[0] && bytes[at + 1] == word[1] && bytes[at + 2] == word[2] && bytes[at + 3] == word[3];
    BytesOfWord(n);
  }

  /** The octets read are those of the number, so reading loses nothing. */
  lemma WrittenAsRead(bytes: seq<byte>, at: nat)
    ensures at + 2 <= |bytes| ==> bytes[at..at + 2] == WriteU16(ReadU16(bytes, at).value)
    ensures at + 4 <= |bytes| ==> bytes[at..at + 4] == WriteU32(ReadU32(bytes, at).value)
  {
    if at + 4 <= |bytes| {
      WordOfBytes(bytes[at], bytes[at + 1], bytes[at + 2], bytes[at + 3]);
    }
  }

  lemma WordOfBytes(a: byte, b: byte, c: byte, d: byte)
    ensures var n := a + 0x100 * b + 0x1_0000 * c + 0x100_0000 * d;
      n < U32 && WriteU32(n) == [a, b, c, d]
  {
    var n := a + 0x100 * b + 0x1_0000 * c + 0x100_0000 * d;
    assert n / 0x100 == b + 0x100 * c + 0x1_0000 * d;
    assert n / 0x1_0000 == c + 0x100 * d;
  }

  lemma BytesOfWord(n: nat)
    requires n < U32
    ensures n % 256 + 0x100 * (n / 0x100 % 256) + 0x1_0000 * (n / 0x1_0000 % 256) + 0x100_0000 * (n / 0x100_0000) == n
  {
    var a := n / 0x100;
    var b := n / 0x1_0000;
    assert n / 0x1_0000 == a / 256;
    assert n / 0x100_0000 == b / 256;
  }

  /** The place of octet `k` of record `i`, records of one size end to end. */
  function Offset(i: nat, size: nat, k: nat): nat {
    i * size + k
  }

  lemma InGrid(i: nat, count: nat, size: nat, k: nat)
    requires i < count && k < size
    ensures Offset(i, size, k) < count * size
  {
    assert i * size + size == (i + 1) * size <= count * size;
  }

  /** Records laid end to end. */
  function Flatten(rows: seq<seq<byte>>): seq<byte> {
    if rows == [] then [] else Flatten(rows[..|rows| - 1]) + rows[|rows| - 1]
  }

  ghost predicate EqualRows(rows: seq<seq<byte>>, size: nat) {
    forall i :: 0 <= i < |rows| ==> |rows[i]| == size
  }

  lemma {:induction false} FlattenLength(rows: seq<seq<byte>>, size: nat)
    requires EqualRows(rows, size)
    ensures |Flatten(rows)| == |rows| * size
  {
    if rows != [] {
      FlattenLength(rows[..|rows| - 1], size);
      assert (|rows| - 1) * size + size == |rows| * size;
    }
  }

  /** Octet `k` of record `i` is where `Offset` says it is. */
  lemma {:induction false} FlattenAt(rows: seq<seq<byte>>, size: nat, i: nat, k: nat)
    requires EqualRows(rows, size) && i < |rows| && k < size
    ensures Offset(i, size, k) < |Flatten(rows)|
    ensures Flatten(rows)[Offset(i, size, k)] == rows[i][k]
  {
    var n := |rows| - 1;
    FlattenLength(rows, size);
    FlattenLength(rows[..n], size);
    if i < n {
      FlattenAt(rows[..n], size, i, k);
    }
  }

  lemma FlattenPush(rows: seq<seq<byte>>, row: seq<byte>)
    ensures Flatten(rows + [row]) == Flatten(rows) + row
  {
    assert (rows + [row])[..|rows|] == rows;
  }

  /** Consecutive slices of one size, from the start. */
  function Slices(s: seq<byte>, size: nat, count: nat): (rows: seq<seq<byte>>)
    requires count * size <= |s|
    ensures |rows| == count && EqualRows(rows, size)
    ensures forall i :: 0 <= i < count ==>
              0 <= i * size <= i * size + size <= |s| && rows[i] == s[i * size..i * size + size]
  {
    if count == 0 then []
    else
      assert (count - 1) * size + size == count * size;
      Slices(s, size, count - 1) + [s[(count - 1) * size..(count - 1) * size + size]]
  }

  lemma SlicesPush(s: seq<byte>, size: nat, n: nat, last: nat)
    requires last == n * size && last + size == (n + 1) * size <= |s|
    ensures Slices(s, size, n + 1) == Slices(s, size, n) + [s[last..last + size]]
  {
  }

  lemma OneSizeMore(n: nat, size: nat)
    ensures n * size + size == (n + 1) * size
  {
  }

  lemma {:induction false} FlattenSlices(s: seq<byte>, size: nat, count: nat)
    requires count * size <= |s|
    ensures Flatten(Slices(s, size, count)) == s[..count * size]
  {
    hide Flatten, Slices;
    if count == 0 {
      FlattenNone(s, size);
    } else {
      var n := count - 1;
      var last := n * size;
      OneSizeMore(n, size);
      FlattenSlices(s, size, n);
      SlicesPush(s, size, n, last);
      FlattenPush(Slices(s, size, n), s[last..last + size]);
      assert s[..last] + s[last..last + size] == s[..last + size];
    }
  }

  lemma FlattenNone(s: seq<byte>, size: nat)
    ensures Flatten(Slices(s, size, 0)) == s[..0 * size]
  {
  }

  lemma {:induction false} SlicesOfFlatten(rows: seq<seq<byte>>, size: nat)
    requires EqualRows(rows, size)
    ensures |Flatten(rows)| == |rows| * size && Slices(Flatten(rows), size, |rows|) == rows
  {
    FlattenLength(rows, size);
    forall i | 0 <= i < |rows| ensures Slices(Flatten(rows), size, |rows|)[i] == rows[i] {
      var slice := Slices(Flatten(rows), size, |rows|)[i];
      forall k | 0 <= k < size ensures slice[k] == rows[i][k] {
        FlattenAt(rows, size, i, k);
      }
    }
  }
}
