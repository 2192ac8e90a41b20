/** When a list of repairs can be applied again without effect. */
module Repeats {
  import opened Chains
  import opened Json
  import opened Repairs
  import opened Texts
  import opened Wrappers

  /** Applying the list to its own result changes nothing. */
  ghost predicate Repeats(config: Value, rs: seq<Repair>) {
    var once := ApplyAll(config, rs);
    once.Ok? ==> ApplyAll(once.value, rs) == once
  }

  // ------------------------------------------------------------------
  // Where renames carry a key.
  // ------------------------------------------------------------------

  /** The key at which a value ends up that starts at `k`, if nothing lands on it. */
  function Trace(rs: seq<Repair>, k: string): string {
    if rs == [] then k
    else
      var at, last := Trace(rs[..|rs| - 1], k), rs[|rs| - 1];
      if last.RenameKey? && last.from == at then last.to else at
  }

  /** Some rename of the list names the key. */
  predicate Named(rs: seq<Repair>, k: string) {
    exists i :: 0 <= i < |rs| && rs[i].RenameKey? && (rs[i].from == k || rs[i].to == k)
  }

  lemma {:induction false} UnnamedStays(rs: seq<Repair>, k: string)
    ensures !Named(rs, k) ==> Trace(rs, k) == k
    ensures Trace(rs, k) == k || Named(rs, Trace(rs, k))
  {
    if rs != [] {
      var init := rs[..|rs| - 1];
      UnnamedStays(init, k);
      assert forall i :: 0 <= i < |init| ==> init[i] == rs[i];
    }
  }

  /** Every key named is carried to one that stays. */
  ghost predicate CarriesOnce(rs: seq<Repair>) {
    forall k :: Named(rs, k) ==> Trace(rs, Trace(rs, k)) == Trace(rs, k)
  }

  lemma CarriedKeysStay(rs: seq<Repair>, k: string)
    requires CarriesOnce(rs)
    ensures Trace(rs, Trace(rs, k)) == Trace(rs, k)
  {
    UnnamedStays(rs, k);
  }

  // ------------------------------------------------------------------
  // Edits that stay settled.
  // ------------------------------------------------------------------

  predicate Blank(v: Value) {
    v == Null || v == Object(map[])
  }

  function EditOf(r: Repair): Value -> Value
    requires !r.RenameKey?
  {
    if r.SplitValue? then SplitText(r.delimiter) else Default(r.value)
  }

  /** A later edit of the same path leaves the earlier one nothing to do. */
  predicate Compatible(earlier: Repair, later: Repair)
    requires !earlier.RenameKey? && !later.RenameKey?
  {
    || earlier.path != later.path
    || later.SplitValue?
    || (earlier.SplitValue? && !later.value.String?)
    || (earlier.SupplyDefault? && (!Blank(earlier.value) || !Blank(later.value) || earlier.value == later.value))
  }

  lemma CompatibleEdits(earlier: Repair, later: Repair, v: Value)
    requires !earlier.RenameKey? && !later.RenameKey? && Compatible(earlier, later) && earlier.path == later.path
    requires EditOf(earlier)(v) == v
    ensures EditOf(earlier)(EditOf(later)(v)) == EditOf(later)(v)
  {
    hide Split;
  }

  /** Leaves documents with fields alone. */
  ghost predicate Tame(f: Value -> Value) {
    forall v: Value :: v.Object? && v.fields != map[] ==> f(v) == v
  }

  lemma EditsAreTame(r: Repair)
    requires !r.RenameKey?
    ensures Tame(EditOf(r))
  {
  }

  /** An edit that has nothing to do at its path still has nothing to do after
      another one. */
  lemma {:induction false} StaysSettled(v: Value, p: seq<string>, f: Value -> Value, q: seq<string>, g: Value -> Value)
    requires Tame(f) && Tame(g) && Edit(v, p, f) == Ok(v) && Edit(v, q, g).Ok?
    requires p == q ==> forall x :: f(x) == x ==> f(g(x)) == g(x)
    ensures Edit(Edit(v, q, g).value, p, f) == Edit(v, q, g)
    decreases |p|
  {
    if p != [] && q != [] && p[0] == q[0] {
      var child := v.fields[p[0]];
      SettledBelow(v, p, f);
      assert p == [p[0]] + p[1..] && q == [q[0]] + q[1..];
      StaysSettled(child, p[1..], f, q[1..], g);
      var w := Edit(v, q, g).value;
      assert w.fields[p[0] := w.fields[p[0]]] == w.fields;
    } else if p != [] && q != [] {
      SettledBelow(v, p, f);
      var w := Edit(v, q, g).value;
      assert w.fields[p[0]] == v.fields[p[0]];
      assert w.fields[p[0] := w.fields[p[0]]] == w.fields;
    } else if p == [] && q != [] {
      assert q[0] in v.fields && q[0] in Edit(v, q, g).value.fields;
    } else if p != [] {
      assert p[0] in v.fields;
    }
  }

  lemma SettledBelow(v: Value, p: seq<string>, f: Value -> Value)
    requires p != [] && Edit(v, p, f) == Ok(v)
    ensures v.Object? && p[0] in v.fields && Edit(v.fields[p[0]], p[1..], f) == Ok(v.fields[p[0]])
  {
    var child := Edit(v.fields[p[0]], p[1..], f).value;
    assert v.fields[p[0] := child][p[0]] == child;
  }

  /** The repair has nothing to do. */
  ghost predicate NoOp(config: Value, r: Repair) {
    Apply(config, r) == Ok(config)
  }

  function Head(r: Repair): string
    requires !r.RenameKey?
  {
    Split(r.path, ".")[0]
  }

  lemma SamePath(r: Repair, s: Repair)
    requires !r.RenameKey? && !s.RenameKey? && Split(r.path, ".") == Split(s.path, ".")
    ensures r.path == s.path
  {
    hide Split;
    JoinOfSplit(r.path, ".");
    JoinOfSplit(s.path, ".");
  }

  lemma ApplyIsEdit(config: Value, r: Repair)
    requires !r.RenameKey?
    ensures Apply(config, r) == Edit(config, Split(r.path, "."), EditOf(r))
  {
  }

  /** Settled for good: no later repair of a repeatable list unsettles an edit. */
  lemma EditStaysSettled(config: Value, r: Repair, later: Repair)
    requires !r.RenameKey? && NoOp(config, r) && Apply(config, later).Ok?
    requires !later.RenameKey? ==> Compatible(r, later)
    requires later.RenameKey? ==> Head(r) != later.from && Head(r) != later.to
    ensures NoOp(Apply(config, later).value, r)
  {
    hide Split, Edit, EditOf, Compatible;
    var p, f := Split(r.path, "."), EditOf(r);
    ApplyIsEdit(config, r);
    EditsAreTame(r);
    if later.RenameKey? {
      EditsOneField(config, Apply(config, later).value, p, f);
      ApplyIsEdit(Apply(config, later).value, r);
    } else {
      ApplyIsEdit(config, later);
      EditsAreTame(later);
      if p == Split(later.path, ".") {
        SamePath(r, later);
        forall x | f(x) == x ensures f(EditOf(later)(x)) == EditOf(later)(x) {
          CompatibleEdits(r, later, x);
        }
      }
      StaysSettled(config, p, f, Split(later.path, "."), EditOf(later));
      ApplyIsEdit(Apply(config, later).value, r);
    }
  }

  /** An edit looks at the field its path begins with and at no other. */
  lemma EditsOneField(v: Value, w: Value, p: seq<string>, f: Value -> Value)
    requires p != [] && Edit(v, p, f) == Ok(v)
    requires w.Object? && v.Object? && p[0] in v.fields ==> p[0] in w.fields && w.fields[p[0]] == v.fields[p[0]]
    requires v.Object? ==> w.Object?
    ensures Edit(w, p, f) == Ok(w)
  {
    SettledBelow(v, p, f);
    assert w.fields[p[0] := w.fields[p[0]]] == w.fields;
  }

  // ------------------------------------------------------------------
  // Repeatable lists.
  // ------------------------------------------------------------------

  /** No rename after an edit names the key the edit looks at, and edits of one path
      are compatible. */
  ghost predicate Apart(rs: seq<Repair>) {
    && (forall i, j :: 0 <= j < i < |rs| && rs[i].RenameKey? && !rs[j].RenameKey? ==>
          rs[i].from != Head(rs[j]) && rs[i].to != Head(rs[j]))
    && (forall i, j :: 0 <= i < j < |rs| && !rs[i].RenameKey? && !rs[j].RenameKey? ==> Compatible(rs[i], rs[j]))
  }

  ghost predicate Repeatable(rs: seq<Repair>) {
    CarriesOnce(rs) && Apart(rs)
  }

  lemma {:induction false} EditsAreSettled(config: Value, rs: seq<Repair>, i: nat)
    requires Apart(rs) && ApplyAll(config, rs).Ok? && i < |rs| && !rs[i].RenameKey?
    ensures NoOp(ApplyAll(config, rs).value, rs[i])
  {
    hide Apply, Head, Compatible;
    var n := |rs| - 1;
    var before := ApplyAll(config, rs[..n]).value;
    if i < n {
      assert Apart(rs[..n]);
      EditsAreSettled(config, rs[..n], i);
      EditStaysSettled(before, rs[i], rs[n]);
    } else {
      RepairTwice(before, rs[n]);
    }
  }

  // The keys of the result.

  ghost predicate KeysCarried(config: Value, result: Value, rs: seq<Repair>) {
    && (config.Object? <==> result.Object?)
    && (config.Object? ==> forall q :: q in result.fields ==> exists k :: k in config.fields && Trace(rs, k) == q)
  }

  lemma EditKeepsKeys(v: Value, p: seq<string>, f: Value -> Value)
    requires p != [] && Edit(v, p, f).Ok?
    ensures v.Object? && Edit(v, p, f).value.Object? && Edit(v, p, f).value.fields.Keys == v.fields.Keys
  {
  }

  lemma {:induction false} ResultKeysAreCarried(config: Value, rs: seq<Repair>)
    requires ApplyAll(config, rs).Ok?
    ensures KeysCarried(config, ApplyAll(config, rs).value, rs)
  {
    hide Split;
    if rs == [] {
      if config.Object? {
        assert forall q :: q in config.fields ==> Trace(rs, q) == q;
      }
    } else {
      var init, last := rs[..|rs| - 1], rs[|rs| - 1];
      ResultKeysAreCarried(config, init);
      var before, after := ApplyAll(config, init).value, ApplyAll(config, rs).value;
      if !last.RenameKey? {
        EditKeepsKeys(before, Split(last.path, "."), EditOf(last));
      }
      if config.Object? {
        forall q | q in after.fields ensures exists k :: k in config.fields && Trace(rs, k) == q {
          var b := if last.RenameKey? && last.from in before.fields && q == last.to then last.from else q;
          assert b in before.fields;
          var k :| k in config.fields && Trace(init, k) == b;
          assert Trace(rs, k) == q;
        }
      }
    }
  }

  // Applying the list to a settled document.

  /** After the prefix, every value sits where the prefix carries its key. */
  ghost predicate Carried(m: map<string, Value>, n: map<string, Value>, rs: seq<Repair>) {
    && (forall q :: q in m ==> Trace(rs, q) in n && n[Trace(rs, q)] == m[q])
    && (forall k :: k in n ==> Reached(m, rs, k))
  }

  ghost predicate Reached(m: map<string, Value>, rs: seq<Repair>, k: string) {
    exists q :: q in m && Trace(rs, q) == k
  }

  lemma {:induction false} TracesMeetForGood(rs: seq<Repair>, i: nat, a: string, b: string)
    requires i <= |rs| && Trace(rs[..i], a) == Trace(rs[..i], b)
    ensures Trace(rs, a) == Trace(rs, b)
    decreases |rs|
  {
    if i == |rs| {
      assert rs[..i] == rs;
    } else {
      assert rs[..|rs| - 1][..i] == rs[..i];
      TracesMeetForGood(rs[..|rs| - 1], i, a, b);
    }
  }

  lemma TraceOfLast(rs: seq<Repair>, r: Repair, q: string)
    ensures Trace(rs + [r], q) == if r.RenameKey? && Trace(rs, q) == r.from then r.to else Trace(rs, q)
  {
    assert (rs + [r])[..|rs|] == rs;
  }

  /** The fields after a rename. */
  function Renamed(n: map<string, Value>, from: string, to: string): map<string, Value> {
    if from in n then (n - {from})[to := n[from]] else n
  }

  lemma RenameCarries(m: map<string, Value>, n: map<string, Value>, rs: seq<Repair>, r: Repair)
    requires Carried(m, n, rs) && r.RenameKey?
    requires forall a, b :: a in m && b in m && Trace(rs + [r], a) == Trace(rs + [r], b) ==> a == b
    ensures Carried(m, Renamed(n, r.from, r.to), rs + [r])
  {
    hide Trace, Reached, Renamed;
    var after := Renamed(n, r.from, r.to);
    forall k | k in after ensures Reached(m, rs + [r], k) {
      RenameReaches(m, n, rs, r, k);
    }
    forall q | q in m ensures Trace(rs + [r], q) in after && after[Trace(rs + [r], q)] == m[q] {
      RenameCarriesOne(m, n, rs, r, q);
    }
  }

  lemma RenameReaches(m: map<string, Value>, n: map<string, Value>, rs: seq<Repair>, r: Repair, k: string)
    requires Carried(m, n, rs) && r.RenameKey? && k in Renamed(n, r.from, r.to)
    ensures Reached(m, rs + [r], k)
  {
    hide Trace;
    var b := if r.from in n && k == r.to then r.from else k;
    assert Reached(m, rs, b);
    var q :| q in m && Trace(rs, q) == b;
    TraceOfLast(rs, r, q);
  }

  lemma RenameCarriesOne(m: map<string, Value>, n: map<string, Value>, rs: seq<Repair>, r: Repair, q: string)
    requires Carried(m, n, rs) && r.RenameKey? && q in m
    requires forall a, b :: a in m && b in m && Trace(rs + [r], a) == Trace(rs + [r], b) ==> a == b
    ensures var after := Renamed(n, r.from, r.to); Trace(rs + [r], q) in after && after[Trace(rs + [r], q)] == m[q]
  {
    hide Trace;
    TraceOfLast(rs, r, q);
    if r.from in n {
      assert Reached(m, rs, r.from);
      var p :| p in m && Trace(rs, p) == r.from;
      TraceOfLast(rs, r, p);
    }
  }

  /** Renames that do not name a key neither bring a value there nor take it away. */
  lemma {:induction false} LaterRenamesPassBy(rs: seq<Repair>, i: nat, k: string, q: string)
    requires i <= |rs| && forall j :: i <= j < |rs| && rs[j].RenameKey? ==> rs[j].from != k && rs[j].to != k
    ensures Trace(rs, q) == k <==> Trace(rs[..i], q) == k
    decreases |rs|
  {
    if i == |rs| {
      assert rs[..i] == rs;
    } else {
      var n := |rs| - 1;
      LaterRenamesPassBy(rs[..n], i, k, q);
      assert rs[..n][..i] == rs[..i];
    }
  }

  /** The edit has nothing to do, and no rename after it names its key. */
  ghost predicate Settles(m: map<string, Value>, rs: seq<Repair>, i: nat)
    requires i < |rs| && !rs[i].RenameKey?
  {
    && NoOp(Object(m), rs[i])
    && forall j :: i < j < |rs| && rs[j].RenameKey? ==> rs[j].from != Head(rs[i]) && rs[j].to != Head(rs[i])
  }

  /** A document whose keys the list carries nowhere, and whose edits are
      settled, passes through. */
  lemma {:induction false} PassesThrough(m: map<string, Value>, rs: seq<Repair>, i: nat) returns (n: map<string, Value>)
    requires i <= |rs| && forall q :: q in m ==> Trace(rs, q) == q
    requires forall j :: 0 <= j < |rs| && !rs[j].RenameKey? ==> Settles(m, rs, j)
    ensures ApplyAll(Object(m), rs[..i]) == Ok(Object(n)) && Carried(m, n, rs[..i])
  {
    hide Apply, Head, Carried, Trace, Settles, Renamed;
    if i == 0 {
      n := m;
      assert rs[..0] == [];
      NothingCarried(m);
    } else {
      var before := PassesThrough(m, rs, i - 1);
      var r := rs[i - 1];
      assert rs[..i][..i - 1] == rs[..i - 1] && rs[..i] == rs[..i - 1] + [r];
      if r.RenameKey? {
        forall a, b | a in m && b in m && Trace(rs[..i - 1] + [r], a) == Trace(rs[..i - 1] + [r], b) ensures a == b {
          TracesMeetForGood(rs, i, a, b);
        }
        RenameCarries(m, before, rs[..i - 1], r);
        n := Renamed(before, r.from, r.to);
        ApplyRenames(before, r);
      } else {
        n := before;
        UntouchedField(m, before, rs, i - 1);
        CarriedOn(m, before, rs, i - 1);
      }
    }
  }

  lemma NothingCarried(m: map<string, Value>)
    ensures Carried(m, m, [])
  {
    forall k | k in m ensures Reached(m, [], k) {
      assert Trace([], k) == k;
    }
  }

  lemma ApplyRenames(n: map<string, Value>, r: Repair)
    requires r.RenameKey?
    ensures Apply(Object(n), r) == Ok(Object(Renamed(n, r.from, r.to)))
  {
    hide Split;
  }

  /** The field an edit looks at is back in its place. */
  lemma UntouchedField(m: map<string, Value>, n: map<string, Value>, rs: seq<Repair>, i: nat)
    requires i < |rs| && !rs[i].RenameKey? && Carried(m, n, rs[..i]) && Settles(m, rs, i)
    requires forall q :: q in m ==> Trace(rs, q) == q
    ensures NoOp(Object(n), rs[i])
  {
    hide Split, Edit, Trace, Reached;
    var p, h := Split(rs[i].path, "."), Head(rs[i]);
    ApplyIsEdit(Object(m), rs[i]);
    ApplyIsEdit(Object(n), rs[i]);
    SettledBelow(Object(m), p, EditOf(rs[i]));
    LaterRenamesPassBy(rs, i, h, h);
    EditsOneField(Object(m), Object(n), p, EditOf(rs[i]));
  }

  lemma CarriedOn(m: map<string, Value>, n: map<string, Value>, rs: seq<Repair>, i: nat)
    requires i < |rs| && !rs[i].RenameKey? && Carried(m, n, rs[..i])
    ensures Carried(m, n, rs[..i + 1])
  {
    hide Trace;
    assert rs[..i + 1] == rs[..i] + [rs[i]];
    forall q ensures Trace(rs[..i] + [rs[i]], q) == Trace(rs[..i], q) {
      TraceOfLast(rs[..i], rs[i], q);
    }
    forall k | k in n ensures Reached(m, rs[..i + 1], k) {
      assert Reached(m, rs[..i], k);
    }
  }

  lemma SameFields(m: map<string, Value>, n: map<string, Value>, rs: seq<Repair>)
    requires Carried(m, n, rs) && forall q :: q in m ==> Trace(rs, q) == q
    ensures m == n
  {
    hide Trace;
    forall k | k in n ensures k in m && m[k] == n[k] {
      assert Reached(m, rs, k);
    }
  }

  /** A repeatable list that succeeds changes nothing the second time. */
  lemma RepeatableListsRepeat(config: Value, rs: seq<Repair>)
    requires Repeatable(rs)
    ensures Repeats(config, rs)
  {
    hide Apply, Head, Compatible, Trace;
    var once := ApplyAll(config, rs);
    if once.Ok? {
      ResultKeysAreCarried(config, rs);
      forall j | 0 <= j < |rs| && !rs[j].RenameKey? ensures NoOp(once.value, rs[j]) {
        EditsAreSettled(config, rs, j);
      }
      if once.value.Object? {
        var m := once.value.fields;
        forall q | q in m ensures Trace(rs, q) == q {
          var k :| k in config.fields && Trace(rs, k) == q;
          CarriedKeysStay(rs, k);
        }
        var n := PassesThrough(m, rs, |rs|);
        assert rs[..|rs|] == rs;
        SameFields(m, n, rs);
      } else {
        NothingToDo(once.value, rs);
      }
    }
  }

  lemma {:induction false} NothingToDo(v: Value, rs: seq<Repair>)
    requires !v.Object? && forall j :: 0 <= j < |rs| && !rs[j].RenameKey? ==> NoOp(v, rs[j])
    ensures ApplyAll(v, rs) == Ok(v)
  {
    hide Split, Edit;
    if rs != [] {
      NothingToDo(v, rs[..|rs| - 1]);
    }
  }

  // ------------------------------------------------------------------
  // Exactness, and what goes wrong otherwise.
  // ------------------------------------------------------------------

  lemma {:induction false} OneFieldIsCarried(k: string, v: Value, rs: seq<Repair>)
    requires forall i :: 0 <= i < |rs| ==> rs[i].RenameKey?
    ensures ApplyAll(Object(map[k := v]), rs) == Ok(Object(map[Trace(rs, k) := v]))
  {
    hide Split;
    if rs != [] {
      var init, last := rs[..|rs| - 1], rs[|rs| - 1];
      OneFieldIsCarried(k, v, init);
      var at := Trace(init, k);
      assert last.from == at ==> (map[at := v] - {at})[last.to := v] == map[last.to := v];
    }
  }

  /** A list of renames repeats on every document exactly when it carries every
      key it names to one that stays. */
  lemma RenamesRepeatExactly(rs: seq<Repair>)
    requires forall i :: 0 <= i < |rs| ==> rs[i].RenameKey?
    ensures (forall config: Value :: Repeats(config, rs)) <==> CarriesOnce(rs)
  {
    hide Trace, Named, ApplyAll;
    if CarriesOnce(rs) {
      forall config: Value ensures Repeats(config, rs) {
        RepeatableListsRepeat(config, rs);
      }
    }
    if forall config: Value :: Repeats(config, rs) {
      forall k ensures Trace(rs, Trace(rs, k)) == Trace(rs, k) {
        OneFieldIsCarried(k, Null, rs);
        OneFieldIsCarried(Trace(rs, k), Null, rs);
        assert Repeats(Object(map[k := Null]), rs);
        assert Trace(rs, k) in map[Trace(rs, k) := Null];
        assert Trace(rs, Trace(rs, k)) in map[Trace(rs, Trace(rs, k)) := Null];
      }
    }
  }

  /** A rename and then a default for its target can be repeated. */
  lemma RenameThenDefault(a: string, b: string, value: Value, config: Value)
    ensures Repeats(config, [RenameKey(a, b), SupplyDefault(b, value)])
  {
    hide ApplyAll, Head;
    var rs := [RenameKey(a, b), SupplyDefault(b, value)];
    forall k ensures Trace(rs, Trace(rs, k)) == Trace(rs, k) {
      TraceOfPair(rs[0], rs[1], k);
      TraceOfPair(rs[0], rs[1], Trace(rs, k));
    }
    RepeatableListsRepeat(config, rs);
  }

  lemma TraceOfPair(first: Repair, second: Repair, k: string)
    requires !second.RenameKey?
    ensures Trace([first, second], k) == if first.RenameKey? && first.from == k then first.to else k
  {
    assert [] + [first] == [first] && [first] + [second] == [first, second];
    TraceOfLast([], first, k);
    TraceOfLast([first], second, k);
  }

  /** A default for a key that is then renamed away: it succeeds once and fails
      from then on. */
  lemma SecondTimeFails(a: string, b: string, value: Value)
    requires a != b && '.' !in a
    ensures var rs := [SupplyDefault(a, value), RenameKey(a, b)];
      var once := ApplyAll(Object(map[a := Null]), rs);
      once == Ok(Object(map[b := value])) && ApplyAll(once.value, rs).Err?
  {
    hide Edit, Split;
    OnePart(a);
    var first, second := SupplyDefault(a, value), RenameKey(a, b);
    var config, once := Object(map[a := Null]), Object(map[b := value]);
    TwoRepairs(config, first, second);
    TwoRepairs(once, first, second);
    EditField(config.fields, a, Default(value));
    EditField(once.fields, a, Default(value));
    assert Apply(config, first).value.fields == map[a := value];
    assert Apply(Apply(config, first).value, second).value.fields == map[b := value];
  }

  lemma EditField(m: map<string, Value>, a: string, f: Value -> Value)
    ensures Edit(Object(m), [a], f) == if a in m then Ok(Object(m[a := f(m[a])])) else Err(MissingSegment(a))
  {
    assert [a][1..] == [];
  }

  /** A split before the default it applies to: the second time splits it. */
  lemma SecondTimeSplits(a: string, delimiter: string, text: string)
    requires '.' !in a
    ensures var rs := [SplitValue(a, delimiter), SupplyDefault(a, String(text))];
      !Repeats(Object(map[a := Null]), rs)
  {
    hide Edit, Split;
    OnePart(a);
    var first, second := SplitValue(a, delimiter), SupplyDefault(a, String(text));
    var config, once := Object(map[a := Null]), Object(map[a := String(text)]);
    var split := SplitText(delimiter)(String(text));
    TwoRepairs(config, first, second);
    TwoRepairs(once, first, second);
    EditField(map[a := Null], a, SplitText(delimiter));
    EditField(map[a := Null], a, Default(String(text)));
    EditField(map[a := String(text)], a, SplitText(delimiter));
    EditField(map[a := split], a, Default(String(text)));
    assert map[a := Null][a := Null] == map[a := Null];
    assert map[a := Null][a := String(text)] == map[a := String(text)];
    assert map[a := String(text)][a := split] == map[a := split];
    assert map[a := split][a := split] == map[a := split];
    assert map[a := split][a] != map[a := String(text)][a];
  }
}
