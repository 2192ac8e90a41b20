/** The chain of upgrade steps between two versions of a package. */
module Chains {
  import opened Json
  import opened Sorting
  import opened Versions
  import opened Wrappers

  datatype Repair =
    | RenameKey(from: string, to: string)
    | SplitValue(path: string, delimiter: string)
    | SupplyDefault(path: string, value: Value)

  datatype Migration = Migration(version: Version, order: nat, description: string)

  /** Repairs by the version they lead to; `keys` is the order in which the hash
      map yields its keys. */
  datatype Block = Block(repairs: map<Version, seq<Repair>>, keys: seq<Version>, migrations: seq<Migration>)

  datatype Step = Step(from: Version, to: Version, repairs: seq<Repair>, migrations: seq<Migration>)

  datatype ChainError = NoPath | Gap

  function VersionsOf(ms: seq<Migration>): seq<Version> {
    seq(|ms|, i requires 0 <= i < |ms| => ms[i].version)
  }

  /** Every version the block names, in the order it names them. */
  function Declared(b: Block): seq<Version> {
    VersionsOf(b.migrations) + b.keys
  }

  predicate InRange(v: Version, from: Version, target: Version) {
    Precedes(from, v) && !Precedes(target, v)
  }

  function Select(s: seq<Version>, from: Version, target: Version): seq<Version> {
    if s == [] then []
    else Select(s[..|s| - 1], from, target) + (if InRange(s[|s| - 1], from, target) then [s[|s| - 1]] else [])
  }

  function Path(from: Version, target: Version, b: Block): seq<Version> {
    Select(Dedup(Sort(Declared(b), Precedes)), from, target)
  }

  function RepairsTo(b: Block, v: Version): seq<Repair> {
    if v in b.repairs then b.repairs[v] else []
  }

  function MigrationsTo(ms: seq<Migration>, v: Version): seq<Migration> {
    if ms == [] then []
    else MigrationsTo(ms[..|ms| - 1], v) + (if ms[|ms| - 1].version == v then [ms[|ms| - 1]] else [])
  }

  function StepTo(b: Block, from: Version, to: Version): Step {
    Step(from, to, RepairsTo(b, to), MigrationsTo(b.migrations, to))
  }

  /** The version before position `i` of a path that starts at `from`. */
  function Prior(path: seq<Version>, from: Version, i: nat): Version
    requires i <= |path|
  {
    if i == 0 then from else path[i - 1]
  }

  /** One step to each version of the path, from the version before it. */
  function Steps(path: seq<Version>, from: Version, b: Block): (steps: seq<Step>)
    ensures |steps| == |path|
  {
    if path == [] then []
    else
      var n := |path| - 1;
      Steps(path[..n], from, b) + [StepTo(b, Prior(path, from, n), path[n])]
  }

  lemma {:induction false} StepAt(path: seq<Version>, from: Version, b: Block, i: nat)
    requires i < |path|
    ensures Steps(path, from, b)[i] == StepTo(b, Prior(path, from, i), path[i])
  {
    hide StepTo;
    if i < |path| - 1 {
      StepAt(path[..|path| - 1], from, b, i);
    }
  }

  lemma StepsAre(path: seq<Version>, from: Version, b: Block)
    ensures forall i :: 0 <= i < |path| ==> Steps(path, from, b)[i] == StepTo(b, Prior(path, from, i), path[i])
    ensures Targets(Steps(path, from, b)) == path
  {
    hide Steps;
    forall i | 0 <= i < |path| ensures Steps(path, from, b)[i] == StepTo(b, Prior(path, from, i), path[i]) {
      StepAt(path, from, b, i);
    }
  }

  function Chain(from: Version, target: Version, b: Block): Result<seq<Step>, ChainError> {
    if from == target then Ok([])
    else
      var path := Path(from, target, b);
      if path == [] then Err(NoPath)
      else if path[|path| - 1] != target then Err(Gap)
      else Ok(Steps(path, from, b))
  }

  method MigrationsFor(ms: seq<Migration>, v: Version) returns (selected: seq<Migration>)
    ensures selected == MigrationsTo(ms, v)
  {
    selected := [];
    for i := 0 to |ms|
      invariant selected == MigrationsTo(ms[..i], v)
    {
      assert ms[..i + 1][..i] == ms[..i];
      if ms[i].version == v {
        selected := selected + [ms[i]];
      }
    }
    assert ms[..|ms|] == ms;
  }

  method PathVersions(from: Version, target: Version, b: Block) returns (path: seq<Version>)
    ensures path == Path(from, target, b)
  {
    hide InRange, Sort, Dedup;
    var versions := Dedup(Sort(Declared(b), Precedes));
    path := [];
    for i := 0 to |versions|
      invariant path == Select(versions[..i], from, target)
    {
      assert versions[..i + 1][..i] == versions[..i];
      if InRange(versions[i], from, target) {
        path := path + [versions[i]];
      }
    }
    assert versions[..|versions|] == versions;
  }

  method ComputeChain(from: Version, target: Version, b: Block) returns (r: Result<seq<Step>, ChainError>)
    ensures r == Chain(from, target, b)
  {
    hide Path, MigrationsTo;
    if from == target {
      return Ok([]);
    }
    var path := PathVersions(from, target, b);
    if path == [] {
      return Err(NoPath);
    }
    if path[|path| - 1] != target {
      return Err(Gap);
    }
    var steps, prev := [], from;
    for i := 0 to |path|
      invariant steps == Steps(path[..i], from, b) && prev == Prior(path, from, i)
    {
      assert path[..i + 1][..i] == path[..i];
      var migrations := MigrationsFor(b.migrations, path[i]);
      steps := steps + [Step(prev, path[i], RepairsTo(b, path[i]), migrations)];
      prev := path[i];
    }
    assert path[..|path|] == path;
    return Ok(steps);
  }

  // ------------------------------------------------------------------
  // What every chain is.
  // ------------------------------------------------------------------

  function Targets(steps: seq<Step>): seq<Version> {
    seq(|steps|, i requires 0 <= i < |steps| => steps[i].to)
  }

  ghost predicate Contiguous(steps: seq<Step>, from: Version, target: Version) {
    && steps != [] && steps[0].from == from && steps[|steps| - 1].to == target
    && forall i :: 0 <= i < |steps| - 1 ==> steps[i].to == steps[i + 1].from
  }

  lemma {:induction false} Selected(s: seq<Version>, from: Version, target: Version)
    ensures forall v :: v in Select(s, from, target) <==> v in s && InRange(v, from, target)
  {
    hide InRange;
    if s != [] {
      var init, last := s[..|s| - 1], s[|s| - 1];
      Selected(init, from, target);
      assert s == init + [last];
    }
  }

  lemma {:induction false} SelectKeepsOrder(s: seq<Version>, from: Version, target: Version)
    requires InOrder(s, Precedes)
    ensures InOrder(Select(s, from, target), Precedes)
  {
    hide InRange, Precedes;
    if s != [] {
      var init, last := s[..|s| - 1], s[|s| - 1];
      SelectKeepsOrder(init, from, target);
      Selected(init, from, target);
      var chosen := Select(init, from, target);
      forall i | 0 <= i < |chosen| ensures !Precedes(last, chosen[i]) {
        assert chosen[i] in init;
        var k :| 0 <= k < |init| && init[k] == chosen[i];
        assert s[k] == chosen[i];
      }
    }
  }

  lemma {:induction false} DedupKeepsOrder(s: seq<Version>)
    requires InOrder(s, Precedes)
    ensures InOrder(Dedup(s), Precedes) && Elements(Dedup(s)) == Elements(s)
    ensures s != [] ==> Dedup(s) != [] && Dedup(s)[0] == s[0]
  {
    hide Precedes;
    if |s| >= 2 {
      var rest := s[1..];
      DedupKeepsOrder(rest);
      assert s == [s[0]] + rest;
      assert Elements(s) == {s[0]} + Elements(rest);
      if s[0] != s[1] {
        assert Elements([s[0]] + Dedup(rest)) == {s[0]} + Elements(Dedup(rest));
        forall x | x in Dedup(rest) ensures !Precedes(x, s[0]) {
          assert x in Elements(rest);
        }
      }
    }
  }

  /** The path lists the declared versions in range, in order of precedence. */
  lemma PathIsInOrder(from: Version, target: Version, b: Block)
    ensures InOrder(Path(from, target, b), Precedes)
    ensures forall v :: v in Path(from, target, b) <==> v in Declared(b) && InRange(v, from, target)
  {
    hide InRange, Precedes, Sort, Dedup, Select;
    var sorted := Sort(Declared(b), Precedes);
    Precedence();
    SortSorts(Declared(b), Precedes);
    DedupKeepsOrder(sorted);
    Selected(Dedup(sorted), from, target);
    SelectKeepsOrder(Dedup(sorted), from, target);
    SameElements(sorted, Declared(b));
    assert forall v :: v in Dedup(sorted) <==> v in Elements(Dedup(sorted));
    assert forall v :: v in Declared(b) <==> v in Elements(Declared(b));
  }

  /** Every chain is contiguous, never descends, and goes exactly through the
      declared versions in range, each step with what the block declares. */
  lemma ChainIsContiguous(from: Version, target: Version, b: Block)
    requires from != target && Chain(from, target, b).Ok?
    ensures var steps := Chain(from, target, b).value;
      && Contiguous(steps, from, target) && InOrder(Targets(steps), Precedes)
      && (forall v :: v in Targets(steps) <==> v in Declared(b) && Precedes(from, v) && !Precedes(target, v))
      && forall s :: s in steps ==>
           && s.repairs == (if s.to in b.repairs then b.repairs[s.to] else [])
           && s.migrations == MigrationsTo(b.migrations, s.to)
  {
    hide Path, Precedes, MigrationsTo, Steps, Declared, InOrder, Contiguous, Targets;
    var path := Path(from, target, b);
    PathIsInOrder(from, target, b);
    StepsAre(path, from, b);
    StepsAreContiguous(path, from, b);
  }

  /** A chain to a release goes through every declared pre-release of it above the
      installed version, on the way and with its migrations. */
  lemma PreReleasesAreVisited(from: Version, target: Version, b: Block, v: Version)
    requires from != target && Chain(from, target, b).Ok? && target.pre.None?
    requires v in Declared(b) && SameRelease(v, target) && v.pre.Some? && Precedes(from, v)
    ensures var steps := Chain(from, target, b).value;
      exists i :: 0 <= i < |steps| - 1 && steps[i].to == v && steps[i].migrations == MigrationsTo(b.migrations, v)
  {
    hide Chain, Precedes, MigrationsTo, Declared, InOrder;
    FirstDifferenceDecides(v, target);
    ChainIsContiguous(from, target, b);
    var steps := Chain(from, target, b).value;
    assert v in Targets(steps);
    var i :| 0 <= i < |steps| && Targets(steps)[i] == v;
    assert steps[i].to == v && steps[|steps| - 1].to == target && steps[i] in steps;
  }

  lemma StepsAreContiguous(path: seq<Version>, from: Version, b: Block)
    requires path != []
    ensures Contiguous(Steps(path, from, b), from, path[|path| - 1])
    ensures forall s :: s in Steps(path, from, b) ==> s.repairs == RepairsTo(b, s.to) && s.migrations == MigrationsTo(b.migrations, s.to)
  {
    hide Steps, RepairsTo, MigrationsTo;
    StepsAre(path, from, b);
  }

  // ------------------------------------------------------------------
  // When chains ascend strictly.
  // ------------------------------------------------------------------

  /** No two different declared versions in range are tied. */
  ghost predicate Untied(from: Version, target: Version, b: Block) {
    Separate(Declared(b), from, target)
  }

  ghost predicate Separate(s: seq<Version>, from: Version, target: Version) {
    forall v, w :: v in s && w in s && InRange(v, from, target) && InRange(w, from, target) && Tied(v, w) ==> v == w
  }

  lemma {:induction false} DedupSeparates(s: seq<Version>, from: Version, target: Version)
    requires InOrder(s, Precedes)
    requires Separate(s, from, target)
    ensures Ascending(Select(Dedup(s), from, target), Precedes)
  {
    hide InRange, Precedes, Tied;
    var d := Dedup(s);
    DedupKeepsOrder(s);
    DedupHasNoNeighbours(s);
    Precedence();
    assert forall v :: v in d ==> v in Elements(s);
    SelectAscends(d, from, target);
  }

  /** No element equals its predecessor. */
  ghost predicate NoNeighbours(s: seq<Version>) {
    forall i :: 0 <= i < |s| - 1 ==> s[i] != s[i + 1]
  }

  lemma {:induction false} DedupHasNoNeighbours(s: seq<Version>)
    ensures NoNeighbours(Dedup(s))
    ensures s != [] ==> Dedup(s) != [] && Dedup(s)[0] == s[0]
  {
    if |s| >= 2 {
      DedupHasNoNeighbours(s[1..]);
    }
  }

  lemma {:induction false} SelectAscends(s: seq<Version>, from: Version, target: Version)
    requires InOrder(s, Precedes) && NoNeighbours(s)
    requires Separate(s, from, target)
    ensures Ascending(Select(s, from, target), Precedes)
  {
    hide InRange, Precedes, Tied, NoNeighbours;
    if s != [] {
      var init, last := s[..|s| - 1], s[|s| - 1];
      InitHasNoNeighbours(s);
      SelectAscends(init, from, target);
      Selected(init, from, target);
      if InRange(last, from, target) {
        forall v | v in Select(init, from, target) ensures Precedes(v, last) {
          var i :| 0 <= i < |init| && init[i] == v;
          EarlierPrecedes(s, i, from, target);
        }
      }
    }
  }

  lemma InitHasNoNeighbours(s: seq<Version>)
    requires s != [] && NoNeighbours(s)
    ensures NoNeighbours(s[..|s| - 1])
  {
  }

  lemma EarlierPrecedes(s: seq<Version>, i: nat, from: Version, target: Version)
    requires InOrder(s, Precedes) && NoNeighbours(s) && i < |s| - 1
    requires InRange(s[i], from, target) && InRange(s[|s| - 1], from, target)
    requires Separate(s, from, target)
    ensures Precedes(s[i], s[|s| - 1])
  {
    hide Precedes;
    var last := |s| - 1;
    if !Precedes(s[i], s[last]) {
      Precedence();
      // Everything between them is tied with both, so equal to both.
      VersionOrder(s[i], s[last], s[i]);
      VersionOrder(s[i], s[i + 1], s[last]);
      assert Tied(s[i], s[last]) && !Precedes(s[i + 1], s[i]);
      TiedMeansAlike(s[i], s[last], s[i + 1]);
      assert Tied(s[i], s[i + 1]);
      TiedMeansAlike(s[i], s[i + 1], from);
      TiedMeansAlike(s[i], s[i + 1], target);
    }
  }

  lemma PathAscends(from: Version, target: Version, b: Block)
    requires Untied(from, target, b)
    ensures Ascending(Path(from, target, b), Precedes)
  {
    hide InRange, Precedes, Tied, Sort, Dedup, Select, InOrder;
    var sorted := Sort(Declared(b), Precedes);
    Precedence();
    SortSorts(Declared(b), Precedes);
    SameElements(sorted, Declared(b));
    assert forall v :: v in sorted ==> v in Elements(sorted);
    DedupSeparates(sorted, from, target);
  }

  /** A chain ascends strictly exactly when no versions in range are tied. */
  lemma ChainAscendsExactly(from: Version, target: Version, b: Block)
    requires from != target && Chain(from, target, b).Ok?
    ensures Ascending(Targets(Chain(from, target, b).value), Precedes) <==> Untied(from, target, b)
  {
    hide InRange, Precedes, Path, InOrder, Steps, Declared;
    var path := Path(from, target, b);
    StepsAre(path, from, b);
    PathIsInOrder(from, target, b);
    if Untied(from, target, b) {
      PathAscends(from, target, b);
    }
    if Ascending(path, Precedes) {
      forall v, w | v in path && w in path && Tied(v, w) ensures v == w {
        VersionOrder(v, w, v);
      }
    }
  }

  /** Without ties the order in which the hash map yields its keys is
      irrelevant. */
  lemma KeyOrderIsIrrelevant(from: Version, target: Version, b: Block, keys: seq<Version>)
    requires Untied(from, target, b) && Elements(keys) == Elements(b.keys)
    ensures Chain(from, target, b.(keys := keys)) == Chain(from, target, b)
  {
    hide InRange, Precedes, Tied, Path, InOrder, MigrationsTo, RepairsTo;
    var other := b.(keys := keys);
    assert forall v :: v in keys <==> v in Elements(keys);
    assert forall v :: v in b.keys <==> v in Elements(b.keys);
    assert forall v :: v in Declared(other) <==> v in Declared(b);
    PathAscends(from, target, b);
    PathAscends(from, target, other);
    PathIsInOrder(from, target, b);
    PathIsInOrder(from, target, other);
    Precedence();
    AscendingIsUnique(Path(from, target, b), Path(from, target, other), Precedes);
    StepsIgnoreKeys(Path(from, target, b), from, b, keys);
  }

  lemma {:induction false} StepsIgnoreKeys(path: seq<Version>, from: Version, b: Block, keys: seq<Version>)
    ensures Steps(path, from, b.(keys := keys)) == Steps(path, from, b)
  {
    hide MigrationsTo;
    if path != [] {
      StepsIgnoreKeys(path[..|path| - 1], from, b, keys);
    }
  }

  // ------------------------------------------------------------------
  // In what order tied versions are visited.
  // ------------------------------------------------------------------

  /** Those of the versions that are tied with `v`, in the order given. */
  function Ties(s: seq<Version>, v: Version): seq<Version> {
    if s == [] then [] else (if Tied(s[0], v) then [s[0]] else []) + Ties(s[1..], v)
  }

  lemma {:induction false} TiesOfConcat(s: seq<Version>, t: seq<Version>, v: Version)
    ensures Ties(s + t, v) == Ties(s, v) + Ties(t, v)
  {
    hide Tied;
    if s == [] {
      assert s + t == t;
    } else {
      TiesOfConcat(s[1..], t, v);
      assert (s + t)[1..] == s[1..] + t;
    }
  }

  lemma {:induction false} NoTies(s: seq<Version>, v: Version)
    requires forall i :: 0 <= i < |s| ==> !Tied(s[i], v)
    ensures Ties(s, v) == []
  {
    hide Tied;
    if s != [] {
      NoTies(s[1..], v);
    }
  }

  lemma TiedIsTransitive(a: Version, b: Version, c: Version)
    requires Tied(a, b)
    ensures Tied(a, c) <==> Tied(b, c)
  {
    hide Precedes;
    TiedMeansAlike(a, b, c);
  }

  /** Past an element that `x` precedes, nothing is tied with `x`. */
  lemma NoTiesPast(s: seq<Version>, x: Version, v: Version)
    requires InOrder(s, Precedes) && s != [] && Precedes(x, s[0]) && Tied(x, v)
    ensures Ties(s, v) == []
  {
    hide Precedes;
    forall i | 0 <= i < |s| ensures !Tied(s[i], v) {
      Precedence();
      VersionOrder(x, s[0], s[i]);
      assert Precedes(x, s[i]);
      TiedMeansAlike(x, v, s[i]);
    }
    NoTies(s, v);
  }

  lemma {:induction false} InsertGoesLast(s: seq<Version>, x: Version, v: Version)
    requires InOrder(s, Precedes)
    ensures Ties(Insert(s, x, Precedes), v) == Ties(s + [x], v)
  {
    hide Precedes, Tied;
    TiesOfConcat(s, [x], v);
    if s == [] {
    } else if Precedes(x, s[0]) {
      assert ([x] + s)[1..] == s;
      if Tied(x, v) {
        NoTiesPast(s, x, v);
      }
    } else {
      InsertGoesLast(s[1..], x, v);
      TiesOfConcat(s[1..], [x], v);
      var t := Insert(s[1..], x, Precedes);
      assert ([s[0]] + t)[1..] == t;
    }
  }

  /** Sorting is stable: tied versions keep their order. */
  lemma {:induction false} SortKeepsTies(s: seq<Version>, v: Version)
    ensures Ties(Sort(s, Precedes), v) == Ties(s, v)
  {
    hide Precedes, Ties, Insert;
    if s != [] {
      var n := |s| - 1;
      SortKeepsTies(s[..n], v);
      Precedence();
      SortSorts(s[..n], Precedes);
      InsertGoesLast(Sort(s[..n], Precedes), s[n], v);
      TiesOfConcat(Sort(s[..n], Precedes), [s[n]], v);
      TiesOfConcat(s[..n], [s[n]], v);
      assert s == s[..n] + [s[n]];
    }
  }

  lemma DedupCons(x: Version, s: seq<Version>)
    ensures Dedup([x] + s) == if s != [] && s[0] == x then Dedup(s) else [x] + Dedup(s)
  {
    assert ([x] + s)[1..] == s;
  }

  lemma {:induction false} DedupKeepsTies(s: seq<Version>, v: Version)
    requires InOrder(s, Precedes)
    ensures Ties(Dedup(s), v) == Dedup(Ties(s, v))
  {
    hide Precedes, Tied, Dedup, Ties;
    if s == [] {
      NothingToDedup();
      NoTies(s, v);
    } else {
      var x, rest := s[0], s[1..];
      DedupKeepsTies(rest, v);
      assert s == [x] + rest;
      DedupCons(x, rest);
      DedupCons(x, Ties(rest, v));
      TiesOfConcat([x], Dedup(rest), v);
      TiesOfConcat([x], rest, v);
      TiesOfOne(x, v);
      if !Tied(x, v) {
        assert Ties(s, v) == Ties(rest, v);
      } else if rest == [] {
        NoTies(rest, v);
      } else {
        FirstTie(x, rest, v);
      }
    }
  }

  lemma NothingToDedup()
    ensures Dedup<Version>([]) == []
  {
  }

  lemma TiesOfOne(x: Version, v: Version)
    ensures Ties([x], v) == if Tied(x, v) then [x] else []
  {
    hide Tied;
  }

  /** After a version tied with `v`, either the next is tied too or none is. */
  lemma FirstTie(x: Version, rest: seq<Version>, v: Version)
    requires rest != [] && Tied(x, v) && InOrder([x] + rest, Precedes)
    ensures if Tied(rest[0], v) then Ties(rest, v) != [] && Ties(rest, v)[0] == rest[0] else Ties(rest, v) == [] && rest[0] != x
  {
    hide Precedes, Tied, InOrder;
    TailInOrder(x, rest);
    if !Tied(rest[0], v) {
      TiedOrPrecedes(x, rest[0], v);
      NoTiesPast(rest, x, v);
    }
  }

  lemma TailInOrder(x: Version, rest: seq<Version>)
    requires rest != [] && InOrder([x] + rest, Precedes)
    ensures InOrder(rest, Precedes) && !Precedes(rest[0], x)
  {
    hide Precedes;
    var s := [x] + rest;
    assert s[0] == x && s[1] == rest[0];
    forall i, j | 0 <= i < j < |rest| ensures !Precedes(rest[j], rest[i]) {
      assert s[i + 1] == rest[i] && s[j + 1] == rest[j];
    }
  }

  lemma TiedOrPrecedes(x: Version, y: Version, v: Version)
    requires Tied(x, v) && !Tied(y, v) && !Precedes(y, x)
    ensures Precedes(x, y) && x != y
  {
    hide Precedes;
    TiedMeansAlike(x, v, y);
  }

  lemma {:induction false} SelectKeepsTies(s: seq<Version>, from: Version, target: Version, v: Version)
    requires InRange(v, from, target)
    ensures Ties(Select(s, from, target), v) == Ties(s, v)
  {
    hide Precedes, Tied, Ties;
    if s == [] {
    } else {
      var n := |s| - 1;
      SelectKeepsTies(s[..n], from, target, v);
      assert s == s[..n] + [s[n]];
      TiesOfConcat(s[..n], [s[n]], v);
      TiesOfConcat(Select(s[..n], from, target), [s[n]], v);
      TiesOfOne(s[n], v);
      if Tied(s[n], v) {
        TiedMeansAlike(s[n], v, from);
        TiedMeansAlike(s[n], v, target);
      } else {
        assert Select(s[..n], from, target) + [] == Select(s[..n], from, target);
      }
    }
  }

  /** A path visits the versions tied with one in range as they are declared, those
      named twice in a row once. */
  lemma PathKeepsTies(from: Version, target: Version, b: Block, v: Version)
    requires InRange(v, from, target)
    ensures Ties(Path(from, target, b), v) == Dedup(Ties(Declared(b), v))
  {
    hide Precedes, Tied, Ties, Sort, Dedup, Select, InRange;
    var sorted := Sort(Declared(b), Precedes);
    Precedence();
    SortSorts(Declared(b), Precedes);
    SortKeepsTies(Declared(b), v);
    DedupKeepsTies(sorted, v);
    SelectKeepsTies(Dedup(sorted), from, target, v);
  }

  lemma {:induction false} DedupKeepsLast(s: seq<Version>)
    requires s != []
    ensures Dedup(s) != [] && Dedup(s)[|Dedup(s)| - 1] == s[|s| - 1]
  {
    if |s| >= 2 {
      DedupKeepsLast(s[1..]);
    }
  }

  /** Where any version of a path is tied with the target, its last is. */
  lemma LastIsTied(path: seq<Version>, target: Version)
    requires InOrder(path, Precedes) && (forall v :: v in path ==> !Precedes(target, v)) && Ties(path, target) != []
    ensures path != [] && Tied(path[|path| - 1], target)
    ensures Ties(path, target)[|Ties(path, target)| - 1] == path[|path| - 1]
  {
    hide Precedes, Ties;
    var n := |path| - 1;
    if forall i :: 0 <= i < |path| ==> !Tied(path[i], target) {
      NoTies(path, target);
      assert false;
    }
    var i :| 0 <= i < |path| && Tied(path[i], target);
    assert path[n] in path;
    TiedMeansAlike(path[i], target, path[n]);
    assert path == path[..n] + [path[n]];
    TiesOfConcat(path[..n], [path[n]], target);
    TiesOfOne(path[n], target);
  }

  /** The last of the declared versions that are tied with the target is the target. */
  ghost predicate TargetIsLast(target: Version, b: Block) {
    var tied := Ties(Declared(b), target);
    tied != [] && tied[|tied| - 1] == target
  }

  /** A chain exists exactly when the target is ahead and declared, after all the
      versions tied with it; with nothing at all in range there is no path. */
  lemma ChainExistsExactly(from: Version, target: Version, b: Block)
    requires from != target
    ensures Chain(from, target, b).Ok? <==> Precedes(from, target) && TargetIsLast(target, b)
    ensures Chain(from, target, b) == Err(NoPath) <==> forall v :: v in Declared(b) ==> !InRange(v, from, target)
    ensures Untied(from, target, b) && Precedes(from, target) ==> (TargetIsLast(target, b) <==> target in Declared(b))
  {
    hide Precedes, Tied, Path, Ties, Dedup, Untied, Declared, Steps;
    var path := Path(from, target, b);
    PathIsInOrder(from, target, b);
    VersionOrder(target, target, target);
    if path != [] {
      assert path[0] in path && path[|path| - 1] in path;
    }
    if Precedes(from, target) {
      TargetOnPath(from, target, b);
      if Untied(from, target, b) {
        UntiedTarget(from, target, b);
      }
    }
  }

  lemma TargetOnPath(from: Version, target: Version, b: Block)
    requires Precedes(from, target)
    ensures var path := Path(from, target, b);
      TargetIsLast(target, b) <==> path != [] && path[|path| - 1] == target
  {
    hide Precedes, Path, Ties, Dedup, Declared;
    var path, tied := Path(from, target, b), Ties(Declared(b), target);
    VersionOrder(target, target, target);
    PathKeepsTies(from, target, b, target);
    PathIsInOrder(from, target, b);
    if tied != [] {
      DedupKeepsLast(tied);
      LastIsTied(path, target);
    } else {
      NothingToDedup();
      if path != [] && path[|path| - 1] == target {
        LastIsATie(path);
      }
    }
  }

  lemma LastIsATie(path: seq<Version>)
    requires path != []
    ensures Ties(path, path[|path| - 1]) != []
  {
    hide Precedes, Ties;
    var n := |path| - 1;
    VersionOrder(path[n], path[n], path[n]);
    assert path == path[..n] + [path[n]];
    TiesOfConcat(path[..n], [path[n]], path[n]);
    TiesOfOne(path[n], path[n]);
  }

  lemma {:induction false} TiesAreAmong(s: seq<Version>, v: Version)
    ensures forall x :: x in Ties(s, v) <==> x in s && Tied(x, v)
  {
    hide Tied;
    if s != [] {
      TiesAreAmong(s[1..], v);
      assert s == [s[0]] + s[1..];
    }
  }

  lemma UntiedTarget(from: Version, target: Version, b: Block)
    requires Untied(from, target, b) && Precedes(from, target)
    ensures TargetIsLast(target, b) <==> target in Declared(b)
  {
    hide Precedes, Ties, Declared;
    var tied := Ties(Declared(b), target);
    TiesAreAmong(Declared(b), target);
    VersionOrder(target, target, target);
    if target in Declared(b) {
      var last := tied[|tied| - 1];
      assert last in tied;
      TiedMeansAlike(last, target, from);
      TiedMeansAlike(last, target, target);
    }
  }

  // ------------------------------------------------------------------
  // Migrations.
  // ------------------------------------------------------------------

  function MigrationsOf(steps: seq<Step>): seq<Migration> {
    if steps == [] then [] else MigrationsOf(steps[..|steps| - 1]) + steps[|steps| - 1].migrations
  }

  function MigrationsWithin(ms: seq<Migration>, from: Version, target: Version): seq<Migration> {
    if ms == [] then []
    else
      var last := ms[|ms| - 1];
      MigrationsWithin(ms[..|ms| - 1], from, target) + (if InRange(last.version, from, target) then [last] else [])
  }

  lemma {:induction false} CountTo(ms: seq<Migration>, v: Version, m: Migration)
    ensures multiset(MigrationsTo(ms, v))[m] == if m.version == v then multiset(ms)[m] else 0
  {
    if ms != [] {
      CountTo(ms[..|ms| - 1], v, m);
      assert ms == ms[..|ms| - 1] + [ms[|ms| - 1]];
    }
  }

  lemma {:induction false} CountWithin(ms: seq<Migration>, from: Version, target: Version, m: Migration)
    ensures multiset(MigrationsWithin(ms, from, target))[m] == if InRange(m.version, from, target) then multiset(ms)[m] else 0
  {
    hide InRange;
    if ms != [] {
      CountWithin(ms[..|ms| - 1], from, target, m);
      assert ms == ms[..|ms| - 1] + [ms[|ms| - 1]];
    }
  }

  lemma {:induction false} CountInSteps(path: seq<Version>, from: Version, b: Block, m: Migration)
    requires Ascending(path, Precedes)
    ensures multiset(MigrationsOf(Steps(path, from, b)))[m] == if m.version in path then multiset(b.migrations)[m] else 0
  {
    hide Precedes, MigrationsTo, RepairsTo;
    if path != [] {
      var n := |path| - 1;
      CountInSteps(path[..n], from, b, m);
      CountTo(b.migrations, path[n], m);
      assert path == path[..n] + [path[n]];
      NotEarlier(path);
    }
  }

  lemma NotEarlier(path: seq<Version>)
    requires path != [] && Ascending(path, Precedes)
    ensures path[|path| - 1] !in path[..|path| - 1]
  {
    hide Precedes;
    Precedence();
  }

  /** A chain ascends strictly and carries every migration in range exactly once
      if and only if no versions in range are tied. */
  lemma ChainIsSoundExactly(from: Version, target: Version, b: Block)
    requires from != target && Chain(from, target, b).Ok?
    ensures var steps := Chain(from, target, b).value;
      (Ascending(Targets(steps), Precedes)
       && multiset(MigrationsOf(steps)) == multiset(MigrationsWithin(b.migrations, from, target)))
      <==> Untied(from, target, b)
  {
    hide Path, Untied, InRange, Precedes, Steps, MigrationsOf, MigrationsWithin, Ascending;
    var path, steps := Path(from, target, b), Chain(from, target, b).value;
    ChainAscendsExactly(from, target, b);
    StepsAre(path, from, b);
    PathIsInOrder(from, target, b);
    if Untied(from, target, b) {
      forall m: Migration ensures multiset(MigrationsOf(steps))[m] == multiset(MigrationsWithin(b.migrations, from, target))[m] {
        CountInSteps(path, from, b, m);
        CountWithin(b.migrations, from, target, m);
        MigrationIsDeclared(b, m);
      }
    }
  }

  lemma MigrationsOfLast(path: seq<Version>, from: Version, b: Block)
    requires path != []
    ensures var n := |path| - 1;
      MigrationsOf(Steps(path, from, b)) == MigrationsOf(Steps(path[..n], from, b)) + MigrationsTo(b.migrations, path[n])
  {
    hide MigrationsTo, RepairsTo;
    var n := |path| - 1;
    assert Steps(path, from, b)[..n] == Steps(path[..n], from, b);
  }

  lemma {:induction false} CountOnPath(path: seq<Version>, from: Version, b: Block, m: Migration)
    ensures multiset(MigrationsOf(Steps(path, from, b)))[m] == multiset(path)[m.version] * multiset(b.migrations)[m]
  {
    hide MigrationsTo, Steps, MigrationsOf;
    if path == [] {
      NoMigrations(from, b);
    } else {
      var n := |path| - 1;
      CountOnPath(path[..n], from, b, m);
      CountTo(b.migrations, path[n], m);
      MigrationsOfLast(path, from, b);
      assert path == path[..n] + [path[n]];
      Distributes(multiset(path[..n])[m.version], if path[n] == m.version then 1 else 0, multiset(b.migrations)[m]);
    }
  }

  lemma NoMigrations(from: Version, b: Block)
    ensures MigrationsOf(Steps([], from, b)) == []
  {
  }

  lemma Distributes(a: nat, b: nat, x: nat)
    ensures (a + b) * x == a * x + b * x
  {
  }

  lemma {:induction false} CountOfTies(s: seq<Version>, v: Version)
    ensures multiset(Ties(s, v))[v] == multiset(s)[v]
  {
    hide Tied;
    if s != [] {
      CountOfTies(s[1..], v);
      assert s == [s[0]] + s[1..];
      assert Tied(v, v) by { TiedWithItself(v); }
    }
  }

  lemma TiedWithItself(v: Version)
    ensures Tied(v, v)
  {
    hide Precedes;
    VersionOrder(v, v, v);
  }

  /** Among the versions tied with it, the version is named in one run only. */
  ghost predicate NamedInOneRun(b: Block, v: Version) {
    multiset(Dedup(Ties(Declared(b), v)))[v] == 1
  }

  lemma RunsOnPath(from: Version, target: Version, b: Block, v: Version)
    requires InRange(v, from, target) && v in Declared(b)
    ensures multiset(Path(from, target, b))[v] >= 1
    ensures multiset(Path(from, target, b))[v] == 1 <==> NamedInOneRun(b, v)
  {
    hide Precedes, Path, Ties, Dedup, Declared, InRange;
    PathKeepsTies(from, target, b, v);
    CountOfTies(Path(from, target, b), v);
    PathIsInOrder(from, target, b);
    assert v in multiset(Path(from, target, b));
  }

  /** A chain carries every migration in range exactly once if and only if each
      version that has one is named in one run only. */
  lemma MigrationsOnceExactly(from: Version, target: Version, b: Block)
    requires from != target && Chain(from, target, b).Ok?
    ensures multiset(MigrationsOf(Chain(from, target, b).value)) == multiset(MigrationsWithin(b.migrations, from, target)) <==>
            forall m :: m in b.migrations && InRange(m.version, from, target) ==> NamedInOneRun(b, m.version)
  {
    hide Path, InRange, Precedes, Steps, MigrationsOf, MigrationsWithin, NamedInOneRun, Declared;
    var path := Path(from, target, b);
    var carried, due := multiset(MigrationsOf(Steps(path, from, b))), multiset(MigrationsWithin(b.migrations, from, target));
    PathIsInOrder(from, target, b);
    forall m: Migration
      ensures carried[m] == due[m] <==>
              (m in b.migrations && InRange(m.version, from, target) ==> NamedInOneRun(b, m.version))
    {
      CountOnPath(path, from, b, m);
      CountWithin(b.migrations, from, target, m);
      MigrationIsDeclared(b, m);
      assert m in b.migrations <==> multiset(b.migrations)[m] > 0;
      if m in b.migrations && InRange(m.version, from, target) {
        RunsOnPath(from, target, b, m.version);
        OnceExactly(multiset(path)[m.version], multiset(b.migrations)[m]);
      } else if m in b.migrations {
        assert m.version !in path && multiset(path)[m.version] == 0;
      }
    }
  }

  lemma OnceExactly(a: nat, x: nat)
    requires x > 0
    ensures a * x == x <==> a == 1
  {
    if a >= 2 {
      assert a * x >= 2 * x;
    }
  }

  lemma MigrationIsDeclared(b: Block, m: Migration)
    ensures m in multiset(b.migrations) ==> m.version in Declared(b)
  {
    if m in b.migrations {
      var i :| 0 <= i < |b.migrations| && b.migrations[i] == m;
      assert Declared(b)[i] == m.version;
    }
  }

  /** Within a step, migrations keep the order they were declared in; their
      `order` field takes no part. */
  lemma {:induction false} MigrationsKeepDeclaredOrder(ms: seq<Migration>, v: Version, i: nat, j: nat)
    requires i < j < |MigrationsTo(ms, v)|
    ensures exists k, l :: 0 <= k < l < |ms| && ms[k] == MigrationsTo(ms, v)[i] && ms[l] == MigrationsTo(ms, v)[j]
  {
    var n := |ms| - 1;
    var init := MigrationsTo(ms[..n], v);
    if j < |init| {
      MigrationsKeepDeclaredOrder(ms[..n], v, i, j);
      var k, l :| 0 <= k < l < n && ms[..n][k] == init[i] && ms[..n][l] == init[j];
      assert ms[k] == init[i] && ms[l] == init[j];
    } else {
      ToIsAmong(ms[..n], v, i);
      var k :| 0 <= k < n && ms[..n][k] == init[i];
      assert ms[k] == init[i] && ms[n] == MigrationsTo(ms, v)[j];
    }
  }

  lemma {:induction false} ToIsAmong(ms: seq<Migration>, v: Version, i: nat)
    requires i < |MigrationsTo(ms, v)|
    ensures exists k :: 0 <= k < |ms| && ms[k] == MigrationsTo(ms, v)[i]
  {
    var n := |ms| - 1;
    var init := MigrationsTo(ms[..n], v);
    if i < |init| {
      ToIsAmong(ms[..n], v, i);
      var k :| 0 <= k < n && ms[..n][k] == init[i];
      assert ms[k] == init[i];
    } else {
      assert ms[n] == MigrationsTo(ms, v)[i];
    }
  }

  lemma {:induction false} SortOfOrdered(s: seq<Version>)
    requires InOrder(s, Precedes)
    ensures Sort(s, Precedes) == s
  {
    hide Precedes;
    if s != [] {
      var init, last := s[..|s| - 1], s[|s| - 1];
      SortOfOrdered(init);
      InsertLast(init, last);
    }
  }

  lemma {:induction false} InsertLast(s: seq<Version>, x: Version)
    requires forall j :: 0 <= j < |s| ==> !Precedes(x, s[j])
    ensures Insert(s, x, Precedes) == s + [x]
  {
    hide Precedes;
    if s != [] {
      InsertLast(s[1..], x);
    }
  }

  /** A block that names one version ahead: the chain is one step. */
  lemma ChainOfOne(from: Version, to: Version, repairs: seq<Repair>)
    requires Precedes(from, to)
    ensures Chain(from, to, Block(map[to := repairs], [to], [])) == Ok([Step(from, to, repairs, [])])
  {
    hide Precedes;
    var b := Block(map[to := repairs], [to], []);
    VersionOrder(from, to, from);
    VersionOrder(to, to, to);
    assert Declared(b) == [to];
    SortOfOrdered([to]);
    assert Dedup([to]) == [to];
    SelectAll([to], from, to);
    assert Path(from, to, b) == [to];
    StepsAre([to], from, b);
    assert Steps([to], from, b) == [Step(from, to, repairs, [])];
  }

  /** Two tied versions declared in turn: the first is visited again after the
      second, with all its migrations. */
  lemma TiedVersionsAreVisitedTwice(from: Version, first: Migration, second: Migration, third: Migration)
    requires first.version == third.version != second.version && Tied(first.version, second.version)
    requires Precedes(from, first.version)
    ensures var block := Block(map[], [], [first, second, third]);
      var steps := Chain(from, first.version, block);
      && steps.Ok? && Targets(steps.value) == [first.version, second.version, first.version]
      && steps.value[0].migrations == steps.value[2].migrations == [first, third]
  {
    hide Precedes;
    var a, b := first.version, second.version;
    var block := Block(map[], [], [first, second, third]);
    var path := [a, b, a];
    VersionOrder(a, a, a);
    VersionOrder(b, b, b);
    TiedMeansAlike(a, b, from);
    assert from != a;
    assert Declared(block) == path;
    SortOfOrdered(path);
    DedupOfThree(a, b);
    SelectAll(path, from, a);
    StepsAre(path, from, block);
    OnlyTheFirstAndThird(first, second, third);
  }

  lemma DedupOfThree(a: Version, b: Version)
    requires a != b
    ensures Dedup([a, b, a]) == [a, b, a]
  {
    assert Dedup([a]) == [a];
    assert [b, a][1..] == [a];
    assert Dedup([b, a]) == [b, a];
    assert [a, b, a][1..] == [b, a];
  }

  lemma OnlyTheFirstAndThird(first: Migration, second: Migration, third: Migration)
    requires first.version == third.version != second.version
    ensures MigrationsTo([first, second, third], first.version) == [first, third]
  {
    var v := first.version;
    assert [first][..0] == [] && [first, second][..1] == [first] && [first, second, third][..2] == [first, second];
    assert MigrationsTo([first], v) == [first] && MigrationsTo([first, second], v) == [first];
  }

  /** Versions 1.0.0-1 and 1.0.0-01 are different and tied. */
  lemma LeadingZeroIsVisitedTwice(first: Migration, second: Migration, third: Migration)
    requires first.version == third.version == Version(1, 0, 0, Some("1"), None)
    requires second.version == Version(1, 0, 0, Some("01"), None)
    ensures var steps := Chain(Version(0, 0, 0, None, None), first.version, Block(map[], [], [first, second, third]));
      steps.Ok? && Targets(steps.value) == [first.version, second.version, first.version]
  {
    LeadingZerosAreTied(1, 0, 0, None);
    assert |"1"| != |"01"|;
    TiedVersionsAreVisitedTwice(Version(0, 0, 0, None, None), first, second, third);
  }

  /** So are two builds of one release. */
  lemma BuildIsVisitedTwice(first: Migration, second: Migration, third: Migration, build: string)
    requires first.version == third.version == Version(1, 0, 0, None, None)
    requires second.version == Version(1, 0, 0, None, Some(build))
    ensures var steps := Chain(Version(0, 0, 0, None, None), first.version, Block(map[], [], [first, second, third]));
      steps.Ok? && Targets(steps.value) == [first.version, second.version, first.version]
  {
    BuildsAreTied(first.version, Some(build));
    TiedVersionsAreVisitedTwice(Version(0, 0, 0, None, None), first, second, third);
  }

  lemma {:induction false} SelectAll(s: seq<Version>, from: Version, target: Version)
    requires forall i :: 0 <= i < |s| ==> InRange(s[i], from, target)
    ensures Select(s, from, target) == s
  {
    hide InRange;
    if s != [] {
      SelectAll(s[..|s| - 1], from, target);
    }
  }
}
