/** Sorting by a comparison, and the byte order of text. */
module Sorting {

  /** `before` is a strict weak order: elements that neither precede the other
      are ties, and ties are an equivalence. */
  ghost predicate WeakOrder<T(!new)>(before: (T, T) -> bool) {
    && (forall a :: !before(a, a))
    && (forall a, b, c :: before(a, b) && before(b, c) ==> before(a, c))
    && (forall a, b, c :: before(a, c) ==> before(a, b) || before(b, c))
  }

  /** A weak order without ties between different elements. */
  ghost predicate TotalOrder<T(!new)>(before: (T, T) -> bool) {
    && WeakOrder(before)
    && forall a, b :: a == b || before(a, b) || before(b, a)
  }

  ghost predicate InOrder<T>(s: seq<T>, before: (T, T) -> bool) {
    forall i, j :: 0 <= i < j < |s| ==> !before(s[j], s[i])
  }

  ghost predicate Ascending<T>(s: seq<T>, before: (T, T) -> bool) {
    forall i, j :: 0 <= i < j < |s| ==> before(s[i], s[j])
  }

  function Insert<T>(s: seq<T>, x: T, before: (T, T) -> bool): seq<T> {
    if s == [] || before(x, s[0]) then [x] + s else [s[0]] + Insert(s[1..], x, before)
  }

  /** The stable sort: later elements go after the ties before them. */
  function Sort<T>(s: seq<T>, before: (T, T) -> bool): seq<T> {
    if s == [] then [] else Insert(Sort(s[..|s| - 1], before), s[|s| - 1], before)
  }

  lemma {:induction false} InsertAdds<T>(s: seq<T>, x: T, before: (T, T) -> bool)
    ensures multiset(Insert(s, x, before)) == multiset(s) + multiset{x}
  {
    if s != [] && !before(x, s[0]) {
      InsertAdds(s[1..], x, before);
      assert s == [s[0]] + s[1..];
    }
  }

  lemma {:induction false} InsertKeepsOrder<T(!new)>(s: seq<T>, x: T, before: (T, T) -> bool)
    requires WeakOrder(before) && InOrder(s, before)
    ensures InOrder(Insert(s, x, before), before)
  {
    if s == [] {
    } else if before(x, s[0]) {
      assert forall j :: 0 <= j < |s| ==> !before(s[j], x);
    } else {
      var rest := Insert(s[1..], x, before);
      InsertKeepsOrder(s[1..], x, before);
      InsertAdds(s[1..], x, before);
      forall j | 0 <= j < |rest| ensures !before(rest[j], s[0]) {
        assert rest[j] in multiset(rest);
        assert rest[j] == x || rest[j] in s[1..];
      }
      Prepend(s[0], rest, before);
    }
  }

  lemma Prepend<T>(x: T, s: seq<T>, before: (T, T) -> bool)
    requires InOrder(s, before) && forall j :: 0 <= j < |s| ==> !before(s[j], x)
    ensures InOrder([x] + s, before)
  {
  }

  lemma {:induction false} SortSorts<T(!new)>(s: seq<T>, before: (T, T) -> bool)
    requires WeakOrder(before)
    ensures InOrder(Sort(s, before), before) && multiset(Sort(s, before)) == multiset(s)
    ensures |Sort(s, before)| == |s|
  {
    if s != [] {
      SortSorts(s[..|s| - 1], before);
      InsertKeepsOrder(Sort(s[..|s| - 1], before), s[|s| - 1], before);
      InsertAdds(Sort(s[..|s| - 1], before), s[|s| - 1], before);
      assert s == s[..|s| - 1] + [s[|s| - 1]];
    }
    assert |multiset(s)| == |s| && |multiset(Sort(s, before))| == |Sort(s, before)|;
  }

  /** No two elements tie. */
  ghost predicate NoTies<T(!new)>(s: multiset<T>, before: (T, T) -> bool) {
    forall a, b :: a in s && b in s && !before(a, b) && !before(b, a) ==> a == b
  }

  lemma FirstsAgree<T(!new)>(s: seq<T>, t: seq<T>, before: (T, T) -> bool)
    requires InOrder(s, before) && InOrder(t, before) && NoTies(multiset(s), before)
    requires multiset(s) == multiset(t) && s != [] && t != []
    ensures s[0] == t[0]
  {
    assert s[0] in multiset(s) && t[0] in multiset(t);
    var i :| 0 <= i < |t| && t[i] == s[0];
    var j :| 0 <= j < |s| && s[j] == t[0];
  }

  lemma TailKeeps<T(!new)>(s: seq<T>, before: (T, T) -> bool)
    requires s != [] && InOrder(s, before)
    ensures InOrder(s[1..], before) && multiset(s[1..]) == multiset(s) - multiset{s[0]}
  {
    assert s == [s[0]] + s[1..];
  }

  lemma NoTiesInTail<T(!new)>(s: seq<T>, before: (T, T) -> bool)
    requires s != [] && NoTies(multiset(s), before)
    ensures NoTies(multiset(s[1..]), before)
  {
    assert s == [s[0]] + s[1..];
    assert forall x :: x in multiset(s[1..]) ==> x in multiset(s);
  }

  lemma SameHeadAndTail<T>(s: seq<T>, t: seq<T>)
    requires s != [] && t != [] && s[0] == t[0] && s[1..] == t[1..]
    ensures s == t
  {
    assert s == [s[0]] + s[1..] && t == [t[0]] + t[1..];
  }

  lemma SameLength<T>(s: seq<T>, t: seq<T>)
    requires multiset(s) == multiset(t)
    ensures |s| == |t|
  {
    assert |multiset(s)| == |s| && |multiset(t)| == |t|;
  }

  lemma {:induction false} OrderIsUnique<T(!new)>(s: seq<T>, t: seq<T>, before: (T, T) -> bool)
    requires InOrder(s, before) && InOrder(t, before) && NoTies(multiset(s), before)
    requires multiset(s) == multiset(t)
    ensures s == t
  {
    hide InOrder, NoTies;
    SameLength(s, t);
    if s != [] {
      FirstsAgree(s, t, before);
      TailKeeps(s, before);
      TailKeeps(t, before);
      NoTiesInTail(s, before);
      OrderIsUnique(s[1..], t[1..], before);
      SameHeadAndTail(s, t);
    }
  }

  /** Without ties the sorted sequence does not depend on the input's order. */
  lemma SortIgnoresOrder<T(!new)>(s: seq<T>, t: seq<T>, before: (T, T) -> bool)
    requires WeakOrder(before) && multiset(s) == multiset(t) && NoTies(multiset(s), before)
    ensures Sort(s, before) == Sort(t, before)
  {
    SortSorts(s, before);
    SortSorts(t, before);
    OrderIsUnique(Sort(s, before), Sort(t, before), before);
  }

  // ------------------------------------------------------------------
  // Sorted lists without repetitions.
  // ------------------------------------------------------------------

  function Elements<T>(s: seq<T>): set<T> {
    set x | x in s
  }

  /** Drops every element equal to its predecessor. */
  function Dedup<T(==)>(s: seq<T>): seq<T> {
    if |s| < 2 then s
    else if s[0] == s[1] then Dedup(s[1..])
    else [s[0]] + Dedup(s[1..])
  }

  lemma {:induction false} DedupAscends<T(!new)>(s: seq<T>, before: (T, T) -> bool)
    requires TotalOrder(before) && InOrder(s, before)
    ensures Ascending(Dedup(s), before) && Elements(Dedup(s)) == Elements(s)
    ensures s != [] ==> Dedup(s) != [] && Dedup(s)[0] == s[0]
  {
    if |s| >= 2 {
      var rest := s[1..];
      DedupAscends(rest, before);
      assert s == [s[0]] + rest;
      assert Elements(s) == {s[0]} + Elements(rest);
      if s[0] != s[1] {
        var d := Dedup(rest);
        assert Elements([s[0]] + d) == {s[0]} + Elements(d);
        assert before(s[0], d[0]);
        assert forall j :: 0 < j < |d| ==> before(d[0], d[j]);
      }
    }
  }

  lemma {:induction false} AscendingIsUnique<T(!new)>(s: seq<T>, t: seq<T>, before: (T, T) -> bool)
    requires WeakOrder(before) && Ascending(s, before) && Ascending(t, before) && Elements(s) == Elements(t)
    ensures s == t
  {
    assert s != [] ==> s[0] in Elements(s);
    assert t != [] ==> t[0] in Elements(t);
    if s != [] && t != [] {
      assert s[0] in Elements(t) && t[0] in Elements(s);
      var i :| 0 <= i < |t| && t[i] == s[0];
      var j :| 0 <= j < |s| && s[j] == t[0];
      assert s[0] == t[0];
      TailElements(s, before);
      TailElements(t, before);
      AscendingIsUnique(s[1..], t[1..], before);
      assert s == [s[0]] + s[1..] && t == [t[0]] + t[1..];
    }
  }

  lemma TailElements<T(!new)>(s: seq<T>, before: (T, T) -> bool)
    requires WeakOrder(before) && Ascending(s, before) && s != []
    ensures Elements(s[1..]) == Elements(s) - {s[0]}
  {
    forall x | x in Elements(s) && x != s[0] ensures x in s[1..] {
      var i :| 0 <= i < |s| && s[i] == x;
      assert s[1..][i - 1] == x;
    }
  }

  /** A list sorted and deduplicated. */
  function Canonical<T(==)>(s: seq<T>, before: (T, T) -> bool): seq<T> {
    Dedup(Sort(s, before))
  }

  lemma CanonicalAscends<T(!new)>(s: seq<T>, before: (T, T) -> bool)
    requires TotalOrder(before)
    ensures Ascending(Canonical(s, before), before) && Elements(Canonical(s, before)) == Elements(s)
  {
    SortSorts(s, before);
    DedupAscends(Sort(s, before), before);
    SameElements(Sort(s, before), s);
  }

  lemma SameElements<T>(s: seq<T>, t: seq<T>)
    requires multiset(s) == multiset(t)
    ensures Elements(s) == Elements(t)
  {
    assert forall x :: x in s <==> x in multiset(s);
    assert forall x :: x in t <==> x in multiset(t);
  }

  /** The canonical list says exactly which elements there are. */
  lemma CanonicalIsTheSet<T(!new)>(s: seq<T>, t: seq<T>, before: (T, T) -> bool)
    requires TotalOrder(before)
    ensures Canonical(s, before) == Canonical(t, before) <==> Elements(s) == Elements(t)
  {
    CanonicalAscends(s, before);
    CanonicalAscends(t, before);
    if Elements(s) == Elements(t) {
      AscendingIsUnique(Canonical(s, before), Canonical(t, before), before);
    }
  }

  // ------------------------------------------------------------------
  // Repetitions.
  // ------------------------------------------------------------------

  lemma TwiceInMultiset<T>(t: seq<T>, i: nat, j: nat)
    requires i < j < |t| && t[i] == t[j]
    ensures multiset(t)[t[i]] >= 2
  {
    assert t == t[..i] + [t[i]] + t[i + 1..j] + [t[j]] + t[j + 1..];
  }

  lemma TwoPlaces<T>(s: seq<T>, x: T) returns (i: nat, j: nat)
    requires multiset(s)[x] >= 2
    ensures i < j < |s| && s[i] == s[j] == x
  {
    i :| 0 <= i < |s| && s[i] == x;
    assert s == s[..i] + [x] + s[i + 1..];
    assert x in multiset(s[..i]) || x in multiset(s[i + 1..]);
    if x in s[i + 1..] {
      j :| i < j < |s| && s[j] == x;
    } else {
      j := i;
      i :| 0 <= i < j && s[i] == x;
    }
  }

  // ------------------------------------------------------------------
  // Text.
  // ------------------------------------------------------------------

  /** Lexicographic order by code point, which is also the order of the UTF-8
      encodings. */
  predicate Below(a: string, b: string) {
    b != [] && (a == [] || a[0] < b[0] || (a[0] == b[0] && Below(a[1..], b[1..])))
  }

  lemma {:induction false} BelowIsStrict(a: string)
    ensures !Below(a, a)
  {
    if a != [] {
      BelowIsStrict(a[1..]);
    }
  }

  lemma {:induction false} BelowIsTransitive(a: string, b: string, c: string)
    requires Below(a, b) && Below(b, c)
    ensures Below(a, c)
  {
    if a != [] && a[0] == b[0] && b[0] == c[0] {
      BelowIsTransitive(a[1..], b[1..], c[1..]);
    }
  }

  lemma {:induction false} BelowIsTotal(a: string, b: string)
    ensures a == b || Below(a, b) || Below(b, a)
  {
    if a != [] && b != [] {
      BelowIsTotal(a[1..], b[1..]);
      assert a == [a[0]] + a[1..] && b == [b[0]] + b[1..];
    }
  }

  /** The texts agree before `i`, where `a` ends or has the smaller character. */
  ghost predicate DiffersFirst(a: string, b: string, i: nat) {
    i <= |a| && i < |b| && a[..i] == b[..i] && (i == |a| || a[i] < b[i])
  }

  /** The first difference decides. */
  lemma {:induction false} BelowExactly(a: string, b: string)
    ensures Below(a, b) <==> exists i :: DiffersFirst(a, b, i)
  {
    if a != [] && b != [] && a[0] == b[0] {
      BelowExactly(a[1..], b[1..]);
      assert a == [a[0]] + a[1..] && b == [b[0]] + b[1..];
      if i: nat :| DiffersFirst(a[1..], b[1..], i) {
        assert a[..i + 1] == [a[0]] + a[1..][..i] && b[..i + 1] == [b[0]] + b[1..][..i];
        assert DiffersFirst(a, b, i + 1);
      }
      if i: nat :| DiffersFirst(a, b, i) {
        assert i > 0;
        assert a[1..][..i - 1] == a[..i][1..] && b[1..][..i - 1] == b[..i][1..];
        assert DiffersFirst(a[1..], b[1..], i - 1);
      }
    } else if b != [] {
      assert a[..0] == b[..0];
      assert Below(a, b) ==> DiffersFirst(a, b, 0);
    }
  }

  lemma TextOrder()
    ensures TotalOrder(Below)
  {
    forall a ensures !Below(a, a) {
      BelowIsStrict(a);
    }
    forall a, b, c | Below(a, b) && Below(b, c) ensures Below(a, c) {
      BelowIsTransitive(a, b, c);
    }
    forall a, b ensures a == b || Below(a, b) || Below(b, a) {
      BelowIsTotal(a, b);
    }
  }
}
