/** Capability sets and their delegation. */
module Capability {
  import opened Sorting
  import opened Wrappers

  /** A reference into the skill plane, the only kind there is. */
  datatype SkillRef = SkillRef(reference: string)

  predicate RefBelow(a: SkillRef, b: SkillRef) {
    Below(a.reference, b.reference)
  }

  datatype CapabilitySet = CapabilitySet(tools: seq<string>, refs: seq<SkillRef>)

  datatype Duplicate = DuplicateTool(name: string) | DuplicateRef(ref: SkillRef)

  ghost predicate Valid(s: CapabilitySet) {
    Ascending(s.tools, Below) && Ascending(s.refs, RefBelow)
  }

  ghost predicate NoRepeats<T(!new)>(m: multiset<T>) {
    forall x :: m[x] <= 1
  }

  lemma RefOrder()
    ensures TotalOrder(RefBelow)
  {
    hide Below;
    TextOrder();
  }

  // ------------------------------------------------------------------
  // Composition.
  // ------------------------------------------------------------------

  /** Sorts the members and refuses the least repeated one. */
  method Normalise<T(!new, ==)>(members: seq<T>, before: (T, T) -> bool) returns (r: Result<seq<T>, T>)
    requires TotalOrder(before)
    ensures r.Ok? <==> NoRepeats(multiset(members))
    ensures r.Ok? ==> Ascending(r.value, before) && multiset(r.value) == multiset(members)
    ensures r.Err? ==> multiset(members)[r.error] >= 2
    ensures r.Err? ==> forall x :: multiset(members)[x] >= 2 ==> !before(x, r.error)
  {
    hide Sort;
    var s := Sort(members, before);
    SortSorts(members, before);
    var i := 1;
    while i < |s|
      invariant 1 <= i && (i <= |s| || s == [])
      invariant i <= |s| ==> Ascending(s[..i], before)
    {
      if s[i - 1] == s[i] {
        TwiceInMultiset(s, i - 1, i);
        forall x | multiset(members)[x] >= 2 ensures !before(x, s[i]) {
          NotRepeatedEarlier(s, i, x, before);
        }
        return Err(s[i]);
      }
      AscendingExtends(s, i, before);
      i := i + 1;
    }
    assert s[..|s|] == s;
    AscendingHasNoRepeats(s, before);
    return Ok(s);
  }

  lemma AscendingExtends<T(!new)>(s: seq<T>, i: nat, before: (T, T) -> bool)
    requires TotalOrder(before) && 1 <= i < |s| && InOrder(s, before) && Ascending(s[..i], before) && s[i - 1] != s[i]
    ensures Ascending(s[..i + 1], before)
  {
    assert before(s[i - 1], s[i]);
    forall a | 0 <= a < i ensures before(s[a], s[i]) {
      assert a < i - 1 ==> before(s[..i][a], s[..i][i - 1]);
    }
    forall a, b | 0 <= a < b < i ensures before(s[a], s[b]) {
      assert before(s[..i][a], s[..i][b]);
    }
  }

  lemma NotRepeatedEarlier<T(!new)>(s: seq<T>, i: nat, x: T, before: (T, T) -> bool)
    requires TotalOrder(before) && i < |s| && InOrder(s, before) && Ascending(s[..i], before) && multiset(s)[x] >= 2
    ensures !before(x, s[i])
  {
    var start := s[..i];
    assert forall c, d :: 0 <= c < d < i ==> before(start[c], start[d]);
    var a, b := TwoPlaces(s, x);
  }

  lemma AscendingHasNoRepeats<T(!new)>(s: seq<T>, before: (T, T) -> bool)
    requires WeakOrder(before) && Ascending(s, before)
    ensures NoRepeats(multiset(s))
  {
    forall x ensures multiset(s)[x] <= 1 {
      if multiset(s)[x] >= 2 {
        var i, j := TwoPlaces(s, x);
      }
    }
  }

  /** A set is composed exactly when no member is named twice, and its members
      are then the named ones in ascending order. */
  method FromMembers(tools: seq<string>, refs: seq<SkillRef>) returns (r: Result<CapabilitySet, Duplicate>)
    ensures r.Ok? <==> NoRepeats(multiset(tools)) && NoRepeats(multiset(refs))
    ensures r.Ok? ==> Valid(r.value) && multiset(r.value.tools) == multiset(tools) && multiset(r.value.refs) == multiset(refs)
    ensures r.Ok? ==> var refs := r.value.refs;
      forall i, j :: 0 <= i < j < |refs| ==> Below(refs[i].reference, refs[j].reference)
    ensures r.Err? && r.error.DuplicateTool? ==> multiset(tools)[r.error.name] >= 2
    ensures r.Err? && r.error.DuplicateRef? ==> NoRepeats(multiset(tools)) && multiset(refs)[r.error.ref] >= 2
  {
    hide Below;
    TextOrder();
    RefOrder();
    var sortedTools := Normalise(tools, Below);
    if sortedTools.Err? {
      return Err(DuplicateTool(sortedTools.error));
    }
    var sortedRefs := Normalise(refs, RefBelow);
    if sortedRefs.Err? {
      return Err(DuplicateRef(sortedRefs.error));
    }
    return Ok(CapabilitySet(sortedTools.value, sortedRefs.value));
  }

  /** Only the members matter, not the order they were named in. */
  lemma MembersDetermineTheSet(a: CapabilitySet, b: CapabilitySet)
    requires Valid(a) && Valid(b) && Elements(a.tools) == Elements(b.tools) && Elements(a.refs) == Elements(b.refs)
    ensures a == b
  {
    hide Below, RefBelow;
    TextOrder();
    RefOrder();
    AscendingIsUnique(a.tools, b.tools, Below);
    AscendingIsUnique(a.refs, b.refs, RefBelow);
  }

  // ------------------------------------------------------------------
  // Delegation.
  // ------------------------------------------------------------------

  method BinarySearch<T(!new, ==)>(s: seq<T>, x: T, before: (T, T) -> bool) returns (found: bool)
    requires TotalOrder(before) && Ascending(s, before)
    ensures found <==> x in s
  {
    var lo, hi := 0, |s|;
    while lo < hi
      invariant 0 <= lo <= hi <= |s|
      invariant forall i :: 0 <= i < lo ==> before(s[i], x)
      invariant forall i :: hi <= i < |s| ==> before(x, s[i])
    {
      var mid := lo + (hi - lo) / 2;
      if s[mid] == x {
        return true;
      } else if before(s[mid], x) {
        lo := mid + 1;
      } else {
        hi := mid;
      }
    }
    return false;
  }

  /** The members of `declared` that `parent` also holds. */
  function Kept<T(!new, ==)>(declared: seq<T>, parent: seq<T>): (k: seq<T>)
    ensures forall x :: x in k <==> x in declared && x in parent
  {
    if declared == [] then []
    else
      var rest := Kept(declared[..|declared| - 1], parent);
      var last := declared[|declared| - 1];
      if last in parent then rest + [last] else rest
  }

  lemma {:induction false} KeptAscends<T(!new)>(declared: seq<T>, parent: seq<T>, before: (T, T) -> bool)
    requires Ascending(declared, before)
    ensures Ascending(Kept(declared, parent), before)
  {
    if declared != [] {
      var init, last := declared[..|declared| - 1], declared[|declared| - 1];
      KeptAscends(init, parent, before);
      forall x | x in Kept(init, parent) ensures before(x, last) {
        assert x in init;
      }
    }
  }

  method Keep<T(!new, ==)>(declared: seq<T>, parent: seq<T>, before: (T, T) -> bool) returns (kept: seq<T>)
    requires TotalOrder(before) && Ascending(parent, before)
    ensures kept == Kept(declared, parent)
  {
    kept := [];
    for i := 0 to |declared|
      invariant kept == Kept(declared[..i], parent)
    {
      var found := BinarySearch(parent, declared[i], before);
      assert declared[..i + 1][..i] == declared[..i];
      if found {
        kept := kept + [declared[i]];
      }
    }
    assert declared[..|declared|] == declared;
  }

  function Child(parent: CapabilitySet, declared: CapabilitySet): CapabilitySet {
    CapabilitySet(Kept(declared.tools, parent.tools), Kept(declared.refs, parent.refs))
  }

  lemma ChildIsValid(parent: CapabilitySet, declared: CapabilitySet)
    requires Valid(declared)
    ensures Valid(Child(parent, declared))
  {
    KeptAscends(declared.tools, parent.tools, Below);
    KeptAscends(declared.refs, parent.refs, RefBelow);
  }

  /** The child's set is composed without fail. */
  method IntersectForChild(parent: CapabilitySet, declared: CapabilitySet) returns (child: CapabilitySet)
    requires Valid(parent) && Valid(declared)
    ensures child == Child(parent, declared) && Valid(child)
  {
    hide Below, RefBelow, Kept;
    TextOrder();
    RefOrder();
    ChildIsValid(parent, declared);
    var tools := Keep(declared.tools, parent.tools, Below);
    var refs := Keep(declared.refs, parent.refs, RefBelow);
    AscendingHasNoRepeats(tools, Below);
    AscendingHasNoRepeats(refs, RefBelow);
    var composed := FromMembers(tools, refs);
    child := composed.value;
    SameElements(child.tools, tools);
    SameElements(child.refs, refs);
    MembersDetermineTheSet(child, Child(parent, declared));
  }

  /** The set at the end of a delegation chain: each run hands its own set to
      the next, which declared one itself. */
  function Delegated(root: CapabilitySet, declared: seq<CapabilitySet>): CapabilitySet {
    if declared == [] then root
    else Child(Delegated(root, declared[..|declared| - 1]), declared[|declared| - 1])
  }

  predicate ToolInAll(sets: seq<CapabilitySet>, tool: string) {
    forall i :: 0 <= i < |sets| ==> tool in sets[i].tools
  }

  predicate RefInAll(sets: seq<CapabilitySet>, ref: SkillRef) {
    forall i :: 0 <= i < |sets| ==> ref in sets[i].refs
  }

  /** However deep the chain, its set is valid and holds exactly the members
      common to every set on it. */
  lemma {:induction false} DelegationHoldsTheCommonMembers(root: CapabilitySet, declared: seq<CapabilitySet>)
    requires Valid(root) && forall i :: 0 <= i < |declared| ==> Valid(declared[i])
    ensures Valid(Delegated(root, declared))
    ensures forall x :: x in Delegated(root, declared).tools
                   <==> x in root.tools && ToolInAll(declared, x)
    ensures forall x :: x in Delegated(root, declared).refs
                   <==> x in root.refs && RefInAll(declared, x)
    decreases |declared|
  {
    hide Kept, Valid;
    if declared != [] {
      var init, last := declared[..|declared| - 1], declared[|declared| - 1];
      DelegationHoldsTheCommonMembers(root, init);
      ChildIsValid(Delegated(root, init), last);
      assert declared == init + [last];
      forall x ensures ToolInAll(declared, x) <==> ToolInAll(init, x) && x in last.tools {
      }
      forall x ensures RefInAll(declared, x) <==> RefInAll(init, x) && x in last.refs {
      }
    }
  }

  /** A chain's set does not depend on the order of the declarations. */
  lemma DelegationOrderIsIrrelevant(root: CapabilitySet, a: seq<CapabilitySet>, b: seq<CapabilitySet>)
    requires Valid(root) && (forall i :: 0 <= i < |a| ==> Valid(a[i])) && (forall i :: 0 <= i < |b| ==> Valid(b[i]))
    requires Elements(a) == Elements(b)
    ensures Delegated(root, a) == Delegated(root, b)
  {
    hide Delegated, Valid;
    DelegationHoldsTheCommonMembers(root, a);
    DelegationHoldsTheCommonMembers(root, b);
    InAllTools(a, b);
    InAllTools(b, a);
    MembersDetermineTheSet(Delegated(root, a), Delegated(root, b));
  }

  lemma InAllTools(a: seq<CapabilitySet>, b: seq<CapabilitySet>)
    requires Elements(b) <= Elements(a)
    ensures forall x :: ToolInAll(a, x) ==> ToolInAll(b, x)
    ensures forall x :: RefInAll(a, x) ==> RefInAll(b, x)
  {
    forall i | 0 <= i < |b| ensures exists j :: 0 <= j < |a| && a[j] == b[i] {
      assert b[i] in Elements(b);
    }
  }
}
