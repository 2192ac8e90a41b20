/** Resolving the accepted outputs of a quorum and merging a fan-out. */
module Quorum {
  import opened Json
  import opened Sorting
  import opened Wrappers

  type Accepted = seq<(string, Value)>

  datatype Resolver = MajorityEqual | FirstK | Custom(name: string)

  datatype Tally = Tally(output: Value, votes: nat)

  datatype Outcome =
    | Decided(output: Value)
    | FirstOutputs(outputs: seq<Value>)
    | NoMajority(tallies: seq<Tally>)

  datatype Violation = CustomResolverUnsupported(name: string)

  /** Order by member task id. */
  predicate ByTask(a: (string, Value), b: (string, Value)) {
    Below(a.0, b.0)
  }

  /** Most votes first, ties by the output's text. */
  function ByVotes(text: Value -> string): (Tally, Tally) -> bool {
    (a: Tally, b: Tally) => a.votes > b.votes || (a.votes == b.votes && Below(text(a.output), text(b.output)))
  }

  function Outputs(accepted: Accepted): seq<Value> {
    seq(|accepted|, i requires 0 <= i < |accepted| => accepted[i].1)
  }

  /** The fan-out's merged results: the outputs in task-id order. */
  function MergeFanOut(results: Accepted): seq<Value> {
    Outputs(Sort(results, ByTask))
  }

  function AddVote(tallies: seq<Tally>, output: Value): seq<Tally> {
    if tallies == [] then [Tally(output, 1)]
    else if tallies[0].output == output then [tallies[0].(votes := tallies[0].votes + 1)] + tallies[1..]
    else [tallies[0]] + AddVote(tallies[1..], output)
  }

  function TallyAll(outputs: seq<Value>): seq<Tally> {
    if outputs == [] then [] else AddVote(TallyAll(outputs[..|outputs| - 1]), outputs[|outputs| - 1])
  }

  function Resolve(resolver: Resolver, accepted: Accepted, text: Value -> string): Result<Outcome, Violation> {
    match resolver
    case FirstK => Ok(FirstOutputs(MergeFanOut(accepted)))
    case Custom(name) => Err(CustomResolverUnsupported(name))
    case MajorityEqual =>
      var tallies := Sort(TallyAll(MergeFanOut(accepted)), ByVotes(text));
      if tallies != [] && tallies[0].votes * 2 > |accepted| then Ok(Decided(tallies[0].output))
      else Ok(NoMajority(tallies))
  }

  // ------------------------------------------------------------------
  // The counting loop.
  // ------------------------------------------------------------------

  method CountVotes(outputs: seq<Value>) returns (tallies: seq<Tally>)
    ensures tallies == TallyAll(outputs)
  {
    hide AddVote;
    tallies := [];
    for n := 0 to |outputs|
      invariant tallies == TallyAll(outputs[..n])
    {
      var output, i := outputs[n], 0;
      while i < |tallies| && tallies[i].output != output
        invariant i <= |tallies| && forall j :: 0 <= j < i ==> tallies[j].output != output
      {
        i := i + 1;
      }
      AddVoteAt(tallies, output, i);
      assert outputs[..n + 1][..n] == outputs[..n];
      if i < |tallies| {
        tallies := tallies[i := tallies[i].(votes := tallies[i].votes + 1)];
      } else {
        tallies := tallies + [Tally(output, 1)];
      }
    }
    assert outputs[..|outputs|] == outputs;
  }

  lemma {:induction false} AddVoteAt(tallies: seq<Tally>, output: Value, i: nat)
    requires i <= |tallies| && forall j :: 0 <= j < i ==> tallies[j].output != output
    requires i < |tallies| ==> tallies[i].output == output
    ensures AddVote(tallies, output) ==
      if i < |tallies| then tallies[i := tallies[i].(votes := tallies[i].votes + 1)] else tallies + [Tally(output, 1)]
  {
    if i > 0 {
      AddVoteAt(tallies[1..], output, i - 1);
    }
  }

  method ResolveQuorum(resolver: Resolver, accepted: Accepted, text: Value -> string)
    returns (r: Result<Outcome, Violation>)
    ensures r == Resolve(resolver, accepted, text)
  {
    match resolver
    case FirstK =>
      return Ok(FirstOutputs(MergeFanOut(accepted)));
    case Custom(name) =>
      return Err(CustomResolverUnsupported(name));
    case MajorityEqual =>
      var tallies := CountVotes(MergeFanOut(accepted));
      tallies := Sort(tallies, ByVotes(text));
      if tallies != [] && tallies[0].votes * 2 > |accepted| {
        return Ok(Decided(tallies[0].output));
      }
      return Ok(NoMajority(tallies));
  }

  // ------------------------------------------------------------------
  // What a tally is.
  // ------------------------------------------------------------------

  /** One group per different output, holding its exact number of votes. */
  ghost predicate Exact(tallies: seq<Tally>, outputs: multiset<Value>) {
    && (forall i, j :: 0 <= i < j < |tallies| ==> tallies[i].output != tallies[j].output)
    && (forall i :: 0 <= i < |tallies| ==> tallies[i].votes == outputs[tallies[i].output] > 0)
    && (forall v :: v in outputs ==> Named(tallies, v))
  }

  ghost predicate Named(tallies: seq<Tally>, v: Value) {
    exists i :: 0 <= i < |tallies| && tallies[i].output == v
  }

  lemma VoteForKnown(tallies: seq<Tally>, outputs: multiset<Value>, i: nat)
    requires Exact(tallies, outputs) && i < |tallies|
    ensures Exact(tallies[i := tallies[i].(votes := tallies[i].votes + 1)], outputs + multiset{tallies[i].output})
  {
    hide Named;
    var after := tallies[i := tallies[i].(votes := tallies[i].votes + 1)];
    forall v | Named(tallies, v) ensures Named(after, v) {
      NamedAfter(tallies, after, v);
    }
    NamedAt(tallies, i);
  }

  lemma VoteForNew(tallies: seq<Tally>, outputs: multiset<Value>, v: Value)
    requires Exact(tallies, outputs) && !Named(tallies, v)
    ensures Exact(tallies + [Tally(v, 1)], outputs + multiset{v})
  {
    var after := tallies + [Tally(v, 1)];
    assert v !in outputs;
    assert after[|tallies|].output == v;
    forall w | Named(tallies, w) ensures Named(after, w) {
      NamedAfter(tallies, after, w);
    }
  }

  lemma NamedAt(tallies: seq<Tally>, i: nat)
    requires i < |tallies|
    ensures Named(tallies, tallies[i].output)
  {
  }

  lemma NamedAfter(before: seq<Tally>, after: seq<Tally>, v: Value)
    requires Named(before, v) && |before| <= |after|
    requires forall i :: 0 <= i < |before| ==> after[i].output == before[i].output
    ensures Named(after, v)
  {
    var i :| 0 <= i < |before| && before[i].output == v;
    assert after[i].output == v;
  }

  lemma AddVoteKeepsExact(tallies: seq<Tally>, outputs: multiset<Value>, v: Value)
    requires Exact(tallies, outputs)
    ensures Exact(AddVote(tallies, v), outputs + multiset{v})
  {
    hide AddVote;
    if i :| 0 <= i < |tallies| && tallies[i].output == v {
      AddVoteAt(tallies, v, i);
      VoteForKnown(tallies, outputs, i);
    } else {
      AddVoteAt(tallies, v, |tallies|);
      VoteForNew(tallies, outputs, v);
    }
  }

  lemma {:induction false} TallyIsExact(outputs: seq<Value>)
    ensures Exact(TallyAll(outputs), multiset(outputs))
  {
    hide AddVote, Exact;
    if outputs == [] {
      NothingToCount();
    } else {
      var init, last := outputs[..|outputs| - 1], outputs[|outputs| - 1];
      TallyIsExact(init);
      AddVoteKeepsExact(TallyAll(init), multiset(init), last);
      assert outputs == init + [last];
    }
  }

  lemma NothingToCount()
    ensures Exact([], multiset{})
  {
  }

  function TotalVotes(tallies: seq<Tally>): nat {
    if tallies == [] then 0 else tallies[0].votes + TotalVotes(tallies[1..])
  }

  lemma {:induction false} AddVoteAddsOne(tallies: seq<Tally>, v: Value)
    ensures TotalVotes(AddVote(tallies, v)) == TotalVotes(tallies) + 1
  {
    if tallies != [] && tallies[0].output != v {
      AddVoteAddsOne(tallies[1..], v);
    }
  }

  lemma {:induction false} TallyCountsEveryone(outputs: seq<Value>)
    ensures TotalVotes(TallyAll(outputs)) == |outputs|
  {
    if outputs != [] {
      TallyCountsEveryone(outputs[..|outputs| - 1]);
      AddVoteAddsOne(TallyAll(outputs[..|outputs| - 1]), outputs[|outputs| - 1]);
    }
  }

  // Sorting keeps all of it.

  lemma {:induction false} InsertKeepsTotal(s: seq<Tally>, t: Tally, before: (Tally, Tally) -> bool)
    ensures TotalVotes(Insert(s, t, before)) == TotalVotes(s) + t.votes
  {
    if s != [] && !before(t, s[0]) {
      InsertKeepsTotal(s[1..], t, before);
    }
  }

  lemma {:induction false} SortKeepsTotal(s: seq<Tally>, before: (Tally, Tally) -> bool)
    ensures TotalVotes(Sort(s, before)) == TotalVotes(s)
  {
    if s != [] {
      var init, last := s[..|s| - 1], s[|s| - 1];
      SortKeepsTotal(init, before);
      InsertKeepsTotal(Sort(init, before), last, before);
      TotalOfLast(init, last);
      assert s == init + [last];
    }
  }

  lemma {:induction false} TotalOfLast(s: seq<Tally>, t: Tally)
    ensures TotalVotes(s + [t]) == TotalVotes(s) + t.votes
  {
    if s != [] {
      TotalOfLast(s[1..], t);
      assert (s + [t])[1..] == s[1..] + [t];
    }
  }

  lemma ExactIgnoresOrder(s: seq<Tally>, t: seq<Tally>, outputs: multiset<Value>)
    requires Exact(s, outputs) && multiset(s) == multiset(t)
    ensures Exact(t, outputs)
  {
    forall i | 0 <= i < |t| ensures t[i] in s {
      assert t[i] in multiset(t);
    }
    forall i, j | 0 <= i < j < |t| ensures t[i].output != t[j].output {
      if t[i].output == t[j].output {
        OneTallyPerOutput(s, outputs, t[i], t[j]);
        TwiceInMultiset(t, i, j);
        OnceInMultiset(s, outputs, t[i]);
      }
    }
    forall v | Named(s, v) ensures Named(t, v) {
      var i :| 0 <= i < |s| && s[i].output == v;
      assert s[i] in multiset(s) && s[i] in t;
    }
  }

  lemma OneTallyPerOutput(s: seq<Tally>, outputs: multiset<Value>, a: Tally, b: Tally)
    requires Exact(s, outputs) && a in s && b in s && a.output == b.output
    ensures a == b
  {
  }

  lemma OnceInMultiset(s: seq<Tally>, outputs: multiset<Value>, a: Tally)
    requires Exact(s, outputs) && a in s
    ensures multiset(s)[a] == 1
  {
    var i :| 0 <= i < |s| && s[i] == a;
    assert s == s[..i] + [a] + s[i + 1..];
    assert a !in s[..i] && a !in s[i + 1..];
  }

  // ------------------------------------------------------------------
  // The main results.
  // ------------------------------------------------------------------

  lemma VotesOrder(text: Value -> string)
    ensures WeakOrder(ByVotes(text))
  {
    hide Below;
    var before := ByVotes(text);
    forall a: Tally ensures !before(a, a) {
      BelowIsStrict(text(a.output));
    }
    forall a: Tally, b: Tally, c: Tally | before(a, b) && before(b, c) ensures before(a, c) {
      if Below(text(a.output), text(b.output)) && Below(text(b.output), text(c.output)) {
        BelowIsTransitive(text(a.output), text(b.output), text(c.output));
      }
    }
    forall a: Tally, b: Tally, c: Tally | before(a, c) ensures before(a, b) || before(b, c) {
      BelowIsTotal(text(a.output), text(b.output));
      if Below(text(b.output), text(a.output)) && Below(text(a.output), text(c.output)) {
        BelowIsTransitive(text(b.output), text(a.output), text(c.output));
      }
    }
  }

  lemma TaskOrder()
    ensures WeakOrder(ByTask)
  {
    hide Below;
    TextOrder();
  }

  lemma OutputsKeepVotes(accepted: Accepted)
    ensures |MergeFanOut(accepted)| == |accepted|
    ensures multiset(MergeFanOut(accepted)) == multiset(Outputs(accepted))
  {
    TaskOrder();
    SortSorts(accepted, ByTask);
    SortKeepsOutputs(accepted, ByTask);
  }

  lemma {:induction false} InsertAddsOutput(s: Accepted, x: (string, Value),
                                            before: ((string, Value), (string, Value)) -> bool)
    ensures multiset(Outputs(Insert(s, x, before))) == multiset(Outputs(s)) + multiset{x.1}
  {
    if s == [] || before(x, s[0]) {
      assert Outputs([x] + s) == [x.1] + Outputs(s);
    } else {
      var rest := Insert(s[1..], x, before);
      InsertAddsOutput(s[1..], x, before);
      assert Outputs([s[0]] + rest) == [s[0].1] + Outputs(rest);
      assert Outputs(s) == [s[0].1] + Outputs(s[1..]);
    }
  }

  lemma {:induction false} SortKeepsOutputs(s: Accepted, before: ((string, Value), (string, Value)) -> bool)
    ensures multiset(Outputs(Sort(s, before))) == multiset(Outputs(s))
  {
    if s != [] {
      var init, last := s[..|s| - 1], s[|s| - 1];
      SortKeepsOutputs(init, before);
      InsertAddsOutput(Sort(init, before), last, before);
      assert Outputs(s) == Outputs(init) + [last.1];
    }
  }

  lemma {:induction false} TwoOutputs(outputs: seq<Value>, v: Value, w: Value)
    requires v != w
    ensures multiset(outputs)[v] + multiset(outputs)[w] <= |outputs|
  {
    if outputs != [] {
      TwoOutputs(outputs[1..], v, w);
      assert outputs == [outputs[0]] + outputs[1..];
    }
  }

  /** The sorted tallies of the accepted outputs. */
  function SortedTallies(accepted: Accepted, text: Value -> string): seq<Tally> {
    Sort(TallyAll(MergeFanOut(accepted)), ByVotes(text))
  }

  lemma TalliesAreExact(accepted: Accepted, text: Value -> string)
    ensures var s := SortedTallies(accepted, text);
      && Exact(s, multiset(Outputs(accepted))) && InOrder(s, ByVotes(text)) && TotalVotes(s) == |accepted|
  {
    hide Exact, ByVotes;
    var outputs := MergeFanOut(accepted);
    OutputsKeepVotes(accepted);
    TallyIsExact(outputs);
    TallyCountsEveryone(outputs);
    VotesOrder(text);
    SortSorts(TallyAll(outputs), ByVotes(text));
    SortKeepsTotal(TallyAll(outputs), ByVotes(text));
    ExactIgnoresOrder(TallyAll(outputs), SortedTallies(accepted, text), multiset(outputs));
  }

  lemma OutputsLength(accepted: Accepted)
    ensures |Outputs(accepted)| == |accepted|
  {
  }

  /** An output is decided exactly when strictly more than half of the accepted
      members produced it. */
  lemma MajorityDecides(accepted: Accepted, text: Value -> string, v: Value)
    ensures Resolve(MajorityEqual, accepted, text) == Ok(Decided(v))
       <==> 2 * multiset(Outputs(accepted))[v] > |accepted|
  {
    hide Sort, TallyAll, MergeFanOut, Outputs, TotalVotes;
    TalliesAreExact(accepted, text);
    OutputsLength(accepted);
    var s, counts := SortedTallies(accepted, text), multiset(Outputs(accepted));
    if 2 * counts[v] > |accepted| {
      assert Named(s, v);
      var k :| 0 <= k < |s| && s[k].output == v;
      assert s[0].votes >= s[k].votes;
      if s[0].output != v {
        TwoOutputs(Outputs(accepted), v, s[0].output);
      }
    }
  }

  /** Without a majority the evidence is complete and in order. */
  lemma NoMajorityShowsEverything(accepted: Accepted, text: Value -> string)
    requires forall v :: 2 * multiset(Outputs(accepted))[v] <= |accepted|
    ensures var r := Resolve(MajorityEqual, accepted, text);
      && r.Ok? && r.value.NoMajority?
      && Exact(r.value.tallies, multiset(Outputs(accepted)))
      && InOrder(r.value.tallies, ByVotes(text))
      && TotalVotes(r.value.tallies) == |accepted|
  {
    hide Sort, TallyAll, MergeFanOut, Outputs, TotalVotes, ByVotes, InOrder;
    TalliesAreExact(accepted, text);
  }

  ghost predicate DistinctTasks(accepted: Accepted) {
    forall a, b :: a in multiset(accepted) && b in multiset(accepted) && a.0 == b.0 ==> a == b
  }

  lemma MergeIgnoresOrder(a: Accepted, b: Accepted)
    requires multiset(a) == multiset(b) && DistinctTasks(a)
    ensures MergeFanOut(a) == MergeFanOut(b)
  {
    hide Below;
    TextOrder();
    TaskOrder();
    assert NoTies(multiset(a), ByTask);
    SortIgnoresOrder(a, b, ByTask);
  }

  /** However the completions were observed, the outcome is the same. */
  lemma ResolveIgnoresOrder(resolver: Resolver, a: Accepted, b: Accepted, text: Value -> string)
    requires multiset(a) == multiset(b) && DistinctTasks(a)
    ensures Resolve(resolver, a, text) == Resolve(resolver, b, text)
  {
    hide MergeFanOut, Sort, TallyAll;
    MergeIgnoresOrder(a, b);
    assert |multiset(a)| == |a| && |multiset(b)| == |b|;
  }

  /** The merged outputs are the accepted ones, in ascending task order. */
  lemma MergeIsByTask(accepted: Accepted)
    ensures exists order: Accepted ::
      && multiset(order) == multiset(accepted) && MergeFanOut(accepted) == Outputs(order)
      && forall i, j :: 0 <= i < j < |order| ==> order[i].0 == order[j].0 || Below(order[i].0, order[j].0)
  {
    hide Below;
    TaskOrder();
    SortSorts(accepted, ByTask);
    var order := Sort(accepted, ByTask);
    forall i, j | 0 <= i < j < |order| ensures order[i].0 == order[j].0 || Below(order[i].0, order[j].0) {
      BelowIsTotal(order[i].0, order[j].0);
    }
  }

  // A majority does not even depend on the task ids.

  lemma ExactTalliesAgree(s: seq<Tally>, t: seq<Tally>, outputs: multiset<Value>)
    requires Exact(s, outputs) && Exact(t, outputs)
    ensures multiset(s) == multiset(t)
  {
    forall x: Tally ensures multiset(s)[x] == multiset(t)[x] {
      InBothTallies(s, t, outputs, x);
      InBothTallies(t, s, outputs, x);
    }
  }

  lemma InBothTallies(s: seq<Tally>, t: seq<Tally>, outputs: multiset<Value>, x: Tally)
    requires Exact(s, outputs) && Exact(t, outputs)
    ensures x in s ==> x in t && multiset(s)[x] == 1 && multiset(t)[x] == 1
  {
    if x in s {
      assert Named(t, x.output);
      var k :| 0 <= k < |t| && t[k].output == x.output;
      assert t[k] == x;
      OnceInMultiset(s, outputs, x);
      OnceInMultiset(t, outputs, x);
    }
  }

  ghost predicate InjectiveText(text: Value -> string) {
    forall v, w :: text(v) == text(w) ==> v == w
  }

  lemma TalliesHaveNoTies(s: seq<Tally>, text: Value -> string)
    requires InjectiveText(text)
    ensures NoTies(multiset(s), ByVotes(text))
  {
    hide Below;
    forall a: Tally, b: Tally | !ByVotes(text)(a, b) && !ByVotes(text)(b, a) ensures a == b {
      BelowIsTotal(text(a.output), text(b.output));
    }
  }

  /** Majority resolution depends only on how often each output was given. */
  lemma MajorityIsAboutVotes(a: Accepted, b: Accepted, text: Value -> string)
    requires multiset(Outputs(a)) == multiset(Outputs(b)) && InjectiveText(text)
    ensures Resolve(MajorityEqual, a, text) == Resolve(MajorityEqual, b, text)
  {
    hide Sort, TallyAll, MergeFanOut, Outputs, ByVotes, Exact;
    var s, t := SortedTallies(a, text), SortedTallies(b, text);
    TalliesAreExact(a, text);
    TalliesAreExact(b, text);
    ExactTalliesAgree(s, t, multiset(Outputs(a)));
    TalliesHaveNoTies(s, text);
    OrderIsUnique(s, t, ByVotes(text));
    OutputsLength(a);
    OutputsLength(b);
    assert |multiset(Outputs(a))| == |Outputs(a)| && |multiset(Outputs(b))| == |Outputs(b)|;
  }

  // Merging does: without distinct ids the arrival order shows.

  /** `k` is where `x` belongs in `s`: after its ties. */
  ghost predicate Belongs(s: Accepted, x: (string, Value), k: nat) {
    && k <= |s|
    && (forall j :: 0 <= j < k ==> !ByTask(x, s[j]))
    && (k < |s| ==> ByTask(x, s[k]))
  }

  lemma {:induction false} InsertAt(s: Accepted, x: (string, Value), k: nat)
    requires Belongs(s, x, k)
    ensures Insert(s, x, ByTask) == s[..k] + [x] + s[k..]
  {
    hide Below;
    if k > 0 {
      InsertAt(s[1..], x, k - 1);
    }
  }

  lemma {:induction false} PlaceOf(s: Accepted, x: (string, Value)) returns (k: nat)
    ensures Belongs(s, x, k)
  {
    hide Below;
    if s == [] || ByTask(x, s[0]) {
      k := 0;
    } else {
      var rest := PlaceOf(s[1..], x);
      k := rest + 1;
    }
  }

  lemma NextPlace(s: Accepted, x: (string, Value), y: (string, Value), k: nat)
    requires x.0 == y.0 && Belongs(s, x, k)
    ensures Belongs(s[..k] + [x] + s[k..], y, k + 1)
  {
    hide Below;
    BelowIsStrict(x.0);
  }

  lemma SortOfLast(s: Accepted, x: (string, Value))
    ensures Sort(s + [x], ByTask) == Insert(Sort(s, ByTask), x, ByTask)
  {
    assert (s + [x])[..|s|] == s;
  }

  lemma TiesKeepTheirOrder(rest: Accepted, x: (string, Value), y: (string, Value), k: nat)
    requires x.0 == y.0 && Belongs(Sort(rest, ByTask), x, k)
    ensures var s := Sort(rest, ByTask); Sort(rest + [x, y], ByTask) == s[..k] + [x, y] + s[k..]
  {
    hide Sort, Insert, Below;
    var s := Sort(rest, ByTask);
    SortOfLast(rest, x);
    InsertAt(s, x, k);
    var withX := s[..k] + [x] + s[k..];
    assert rest + [x, y] == rest + [x] + [y];
    SortOfLast(rest + [x], y);
    NextPlace(s, x, y, k);
    InsertAt(withX, y, k + 1);
    assert withX[..k + 1] == s[..k] + [x] && withX[k + 1..] == s[k..];
  }

  ghost predicate MergeIsDeterministic(a: Accepted) {
    forall b: Accepted :: multiset(b) == multiset(a) ==> MergeFanOut(b) == MergeFanOut(a)
  }

  function Without(a: Accepted, i: nat, j: nat): Accepted
    requires i < j < |a|
  {
    a[..i] + a[i + 1..j] + a[j + 1..]
  }

  lemma MovedLast(a: Accepted, i: nat, j: nat)
    requires i < j < |a|
    ensures multiset(Without(a, i, j)) + multiset{a[i]} + multiset{a[j]} == multiset(a)
  {
    assert a == a[..i] + [a[i]] + a[i + 1..j] + [a[j]] + a[j + 1..];
  }

  lemma MergeWithLastTwo(rest: Accepted, x: (string, Value), y: (string, Value), k: nat)
    requires x.0 == y.0 && Belongs(Sort(rest, ByTask), x, k)
    ensures k < |MergeFanOut(rest + [x, y])| && MergeFanOut(rest + [x, y])[k] == x.1
  {
    hide Sort;
    TiesKeepTheirOrder(rest, x, y, k);
  }

  lemma RepeatedTaskShows(a: Accepted, i: nat, j: nat)
    requires i < j < |a| && a[i].0 == a[j].0 && a[i].1 != a[j].1
    ensures !MergeIsDeterministic(a)
  {
    hide Sort, MergeFanOut, Without;
    var x, y, rest := a[i], a[j], Without(a, i, j);
    var k := PlaceOf(Sort(rest, ByTask), x);
    MergeWithLastTwo(rest, x, y, k);
    MergeWithLastTwo(rest, y, x, k);
    MovedLast(a, i, j);
    assert multiset(rest + [x, y]) == multiset(a);
    assert multiset(rest + [y, x]) == multiset(a);
  }

  /** The merged array is independent of the completion order exactly when no
      task id carries two different outputs. */
  lemma MergeIsDeterministicExactly(a: Accepted)
    ensures MergeIsDeterministic(a) <==> DistinctTasks(a)
  {
    hide MergeFanOut;
    if DistinctTasks(a) {
      forall b: Accepted | multiset(b) == multiset(a) ensures MergeFanOut(b) == MergeFanOut(a) {
        MergeIgnoresOrder(a, b);
      }
    } else {
      var x, y :| x in multiset(a) && y in multiset(a) && x.0 == y.0 && x != y;
      var i :| 0 <= i < |a| && a[i] == x;
      var j :| 0 <= j < |a| && a[j] == y;
      if i < j {
        RepeatedTaskShows(a, i, j);
      } else {
        RepeatedTaskShows(a, j, i);
      }
    }
  }
}
