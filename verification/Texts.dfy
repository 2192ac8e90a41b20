/** Cutting text at a separator. */
module Texts {
  import opened Wrappers

  /** The text before and after the first `c`. */
  function SplitOnce(s: string, c: char): (r: Option<(string, string)>)
    ensures r.Some? ==> s == r.value.0 + [c] + r.value.1 && c !in r.value.0
    ensures r.None? ==> c !in s
  {
    if s == "" then None
    else if s[0] == c then Some(("", s[1..]))
    else
      var rest := SplitOnce(s[1..], c);
      if rest.None? then None else Some(([s[0]] + rest.value.0, rest.value.1))
  }

  lemma {:induction false} SplitOnceAt(a: string, b: string, c: char)
    requires c !in a
    ensures SplitOnce(a + [c] + b, c) == Some((a, b))
  {
    var s := a + [c] + b;
    if a == "" {
      assert s[1..] == b;
    } else {
      SplitOnceAt(a[1..], b, c);
      assert s[1..] == a[1..] + [c] + b;
      assert a == [a[0]] + a[1..];
    }
  }

  predicate OccursAt(s: string, d: string, i: nat) {
    i + |d| <= |s| && s[i..i + |d|] == d
  }

  /** Where `d` first occurs. */
  function Find(s: string, d: string): (r: Option<nat>)
    ensures r.Some? ==> OccursAt(s, d, r.value) && forall j: nat :: j < r.value ==> !OccursAt(s, d, j)
    ensures r.None? ==> forall j: nat :: !OccursAt(s, d, j)
  {
    if OccursAt(s, d, 0) then Some(0)
    else if s == "" then None
    else
      var rest := Find(s[1..], d);
      assert forall j: nat :: j > 0 ==> (OccursAt(s, d, j) <==> OccursAt(s[1..], d, j - 1)) by {
        forall j: nat | j > 0 ensures OccursAt(s, d, j) <==> OccursAt(s[1..], d, j - 1) {
          OccursShifted(s, d, j);
        }
      }
      if rest.None? then None else Some(rest.value + 1)
  }

  lemma OccursShifted(s: string, d: string, j: nat)
    requires j > 0 && s != ""
    ensures OccursAt(s, d, j) <==> OccursAt(s[1..], d, j - 1)
  {
    if j + |d| <= |s| {
      assert s[j..j + |d|] == s[1..][j - 1..j - 1 + |d|];
    }
  }

  function Letters(s: string): seq<string> {
    seq(|s|, i requires 0 <= i < |s| => [s[i]])
  }

  /** The parts between non-overlapping occurrences of the delimiter. An empty
      delimiter separates all characters and both ends. */
  function Split(s: string, d: string): (parts: seq<string>)
    ensures parts != []
  {
    if d == "" then [""] + Letters(s) + [""]
    else
      var at := Find(s, d);
      if at.None? then [s] else [s[..at.value]] + Split(s[at.value + |d|..], d)
  }

  function Join(parts: seq<string>, d: string): string {
    if parts == [] then "" else if |parts| == 1 then parts[0] else parts[0] + d + Join(parts[1..], d)
  }

  lemma {:induction false} JoinOfLetters(s: string)
    ensures Join(Letters(s) + [""], "") == s
  {
    if s != "" {
      JoinOfLetters(s[1..]);
      var parts := Letters(s) + [""];
      assert parts[1..] == Letters(s[1..]) + [""];
      assert s == [s[0]] + "" + s[1..];
    }
  }

  lemma SplitAtFirst(s: string, d: string, i: nat)
    requires d != "" && Find(s, d) == Some(i)
    ensures i + |d| <= |s| && s == s[..i] + d + s[i + |d|..]
    ensures Split(s, d) == [s[..i]] + Split(s[i + |d|..], d)
  {
    hide Find;
  }

  /** Splitting loses nothing. */
  lemma {:induction false} JoinOfSplit(s: string, d: string)
    ensures Join(Split(s, d), d) == s
    decreases |s|
  {
    hide Find, Letters;
    if d == "" {
      JoinOfLetters(s);
      assert Split(s, d)[1..] == Letters(s) + [""];
    } else if Find(s, d).Some? {
      var i := Find(s, d).value;
      SplitAtFirst(s, d, i);
      JoinOfSplit(s[i + |d|..], d);
      JoinOfMore(s[..i], Split(s[i + |d|..], d), d);
    }
  }

  lemma JoinOfMore(first: string, rest: seq<string>, d: string)
    requires rest != []
    ensures Join([first] + rest, d) == first + d + Join(rest, d)
  {
    assert ([first] + rest)[1..] == rest;
  }

  lemma FirstPartIsClean(s: string, d: string, i: nat)
    requires d != "" && i <= |s| && forall j: nat :: j < i ==> !OccursAt(s, d, j)
    ensures Find(s[..i], d).None?
  {
    hide Find;
    forall j: nat | j + |d| <= i ensures !OccursAt(s[..i], d, j) {
      assert !OccursAt(s, d, j);
      assert s[..i][j..j + |d|] == s[j..j + |d|];
    }
  }

  /** And no part still holds the delimiter. */
  lemma {:induction false} PartsAreClean(s: string, d: string)
    requires d != ""
    ensures forall i :: 0 <= i < |Split(s, d)| ==> Find(Split(s, d)[i], d).None?
    decreases |s|
  {
    hide Find;
    if Find(s, d).Some? {
      var i := Find(s, d).value;
      SplitAtFirst(s, d, i);
      PartsAreClean(s[i + |d|..], d);
      FirstPartIsClean(s, d, i);
    }
  }

  lemma FindAfter(first: string, c: char, rest: string)
    requires c !in first
    ensures Find(first + [c] + rest, [c]) == Some(|first|)
  {
    hide Find;
    var s := first + [c] + rest;
    assert OccursAt(s, [c], |first|);
    forall j: nat | j < |first| ensures !OccursAt(s, [c], j) {
      assert s[j..j + 1][0] == first[j];
    }
  }

  lemma FindNowhere(s: string, c: char)
    requires c !in s
    ensures Find(s, [c]).None?
  {
    hide Find;
    forall j: nat | j < |s| ensures !OccursAt(s, [c], j) {
      assert s[j..j + 1][0] == s[j];
    }
  }

  /** Parts without the character are what splitting their joined text gives. */
  lemma {:induction false} SplitOfJoin(parts: seq<string>, c: char)
    requires parts != [] && forall i :: 0 <= i < |parts| ==> c !in parts[i]
    ensures Split(Join(parts, [c]), [c]) == parts
  {
    hide Find;
    if |parts| == 1 {
      FindNowhere(parts[0], c);
    } else {
      SplitOfJoin(parts[1..], c);
      FindAfter(parts[0], c, Join(parts[1..], [c]));
      var s := Join(parts, [c]);
      assert s == parts[0] + [c] + Join(parts[1..], [c]);
      assert s[..|parts[0]|] == parts[0] && s[|parts[0]| + 1..] == Join(parts[1..], [c]);
    }
  }

  /** One character cuts a text into these parts exactly when they join to it and
      none of them holds it. */
  lemma SplitExactly(s: string, c: char, parts: seq<string>)
    ensures Split(s, [c]) == parts <==>
            parts != [] && Join(parts, [c]) == s && forall i :: 0 <= i < |parts| ==> c !in parts[i]
  {
    hide Find, Split, Join;
    if parts != [] && Join(parts, [c]) == s && forall i :: 0 <= i < |parts| ==> c !in parts[i] {
      SplitOfJoin(parts, c);
    }
    JoinOfSplit(s, [c]);
    PartsAreClean(s, [c]);
    forall i | 0 <= i < |Split(s, [c])| ensures c !in Split(s, [c])[i] {
      Absent(Split(s, [c])[i], c);
    }
  }

  /** From a boundary to the next: the start, the end, or an occurrence of `c`. */
  predicate IsSegment(s: string, c: char, i: nat, j: nat)
    requires i <= j <= |s|
  {
    (i == 0 || s[i - 1] == c) && (j == |s| || s[j] == c) && c !in s[i..j]
  }

  ghost predicate HasSegment(s: string, c: char, x: string) {
    exists i, j :: 0 <= i <= j <= |s| && IsSegment(s, c, i, j) && s[i..j] == x
  }

  lemma SegmentShifted(s: string, c: char, n: nat, i: nat, j: nat)
    requires n < |s| && s[n] == c && n + 1 <= i <= j <= |s|
    ensures IsSegment(s, c, i, j) <==> IsSegment(s[n + 1..], c, i - n - 1, j - n - 1)
    ensures s[n + 1..][i - n - 1..j - n - 1] == s[i..j]
  {
  }

  lemma SegmentsAfterFirst(s: string, c: char, n: nat, x: string)
    requires n < |s| && s[n] == c && c !in s[..n]
    ensures HasSegment(s, c, x) <==> x == s[..n] || HasSegment(s[n + 1..], c, x)
  {
    hide IsSegment;
    var rest := s[n + 1..];
    FirstSegment(s, c, n);
    if HasSegment(s, c, x) {
      var i, j :| 0 <= i <= j <= |s| && IsSegment(s, c, i, j) && s[i..j] == x;
      if i > 0 {
        LaterSegment(s, c, n, i, j);
        SegmentShifted(s, c, n, i, j);
      }
    }
    if HasSegment(rest, c, x) {
      var i, j :| 0 <= i <= j <= |rest| && IsSegment(rest, c, i, j) && rest[i..j] == x;
      SegmentShifted(s, c, n, n + 1 + i, n + 1 + j);
    }
  }

  lemma FirstSegment(s: string, c: char, n: nat)
    requires n < |s| && s[n] == c && c !in s[..n]
    ensures IsSegment(s, c, 0, n) && s[0..n] == s[..n]
    ensures forall j :: 0 <= j <= |s| && IsSegment(s, c, 0, j) ==> j == n
  {
    assert forall j :: n < j <= |s| ==> s[0..j][n] == c;
    assert forall j :: 0 <= j < n ==> s[j] == s[..n][j];
  }

  lemma LaterSegment(s: string, c: char, n: nat, i: nat, j: nat)
    requires n < |s| && s[n] == c && c !in s[..n] && 0 < i <= j <= |s| && IsSegment(s, c, i, j)
    ensures n + 1 <= i
  {
    assert forall k :: 0 <= k < n ==> s[k] == s[..n][k];
  }

  /** The parts of a text are its segments. */
  lemma {:induction false} PartsAreSegments(s: string, c: char, x: string)
    ensures x in Split(s, [c]) <==> HasSegment(s, c, x)
    decreases |s|
  {
    hide Find;
    if Find(s, [c]).None? {
      Absent(s, c);
      WholeSegment(s, c, x);
    } else {
      var n := Find(s, [c]).value;
      SplitAtFirst(s, [c], n);
      FoundFirst(s, c, n);
      SegmentsAfterFirst(s, c, n, x);
      PartsAreSegments(s[n + 1..], c, x);
    }
  }

  lemma WholeSegment(s: string, c: char, x: string)
    requires c !in s
    ensures HasSegment(s, c, x) <==> x == s
  {
    assert IsSegment(s, c, 0, |s|) && s[0..|s|] == s;
  }

  lemma FoundFirst(s: string, c: char, n: nat)
    requires Find(s, [c]) == Some(n)
    ensures n < |s| && s[n] == c && c !in s[..n]
  {
    hide Find;
    assert s[n..n + 1][0] == s[n];
    forall k: nat | k < n ensures s[k] != c {
      assert !OccursAt(s, [c], k);
      assert s[k..k + 1] == [s[k]];
    }
  }

  lemma Absent(s: string, c: char)
    requires Find(s, [c]).None?
    ensures c !in s
  {
    hide Find;
    forall j: nat | j < |s| ensures s[j] != c {
      assert !OccursAt(s, [c], j);
      assert s[j..j + 1] == [s[j]];
    }
  }

  lemma OnePart(s: string)
    requires '.' !in s
    ensures Split(s, ".") == [s]
  {
    hide Find;
    FindNowhere(s, '.');
  }

  // ------------------------------------------------------------------
  // Alphabets, letter by letter.
  // ------------------------------------------------------------------

  ghost predicate Small(c: char) {
    c in {'a', 'b', 'c', 'd', 'e', 'f', 'g', 'h', 'i', 'j', 'k', 'l', 'm',
          'n', 'o', 'p', 'q', 'r', 's', 't', 'u', 'v', 'w', 'x', 'y', 'z'}
  }

  ghost predicate Capital(c: char) {
    c in {'A', 'B', 'C', 'D', 'E', 'F', 'G', 'H', 'I', 'J', 'K', 'L', 'M',
          'N', 'O', 'P', 'Q', 'R', 'S', 'T', 'U', 'V', 'W', 'X', 'Y', 'Z'}
  }

  ghost predicate Numeric(c: char) {
    c in {'0', '1', '2', '3', '4', '5', '6', '7', '8', '9'}
  }

  ghost predicate SmallHex(c: char) {
    Numeric(c) || c in {'a', 'b', 'c', 'd', 'e', 'f'}
  }

  lemma Alphabets(c: char)
    ensures Small(c) <==> 'a' <= c <= 'z'
    ensures Capital(c) <==> 'A' <= c <= 'Z'
    ensures Numeric(c) <==> '0' <= c <= '9'
    ensures SmallHex(c) <==> '0' <= c <= '9' || 'a' <= c <= 'f'
  {
  }
}
