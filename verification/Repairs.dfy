/** Config repairs: edits of a JSON document. */
module Repairs {
  import opened Chains
  import opened Json
  import opened Texts
  import opened Wrappers

  // ------------------------------------------------------------------
  // Editing at a path.
  // ------------------------------------------------------------------

  datatype RepairError = MissingSegment(name: string) | NotAnObject

  function Edit(v: Value, path: seq<string>, f: Value -> Value): Result<Value, RepairError> {
    if path == [] then Ok(f(v))
    else if !v.Object? then Err(NotAnObject)
    else if path[0] !in v.fields then Err(MissingSegment(path[0]))
    else
      var child := Edit(v.fields[path[0]], path[1..], f);
      if child.Err? then child else Ok(Object(v.fields[path[0] := child.value]))
  }

  function SplitText(delimiter: string): Value -> Value {
    (v: Value) =>
      if v.String? then
        var parts := Split(v.s, delimiter);
        Array(seq(|parts|, i requires 0 <= i < |parts| => String(parts[i])))
      else v
  }

  function Default(value: Value): Value -> Value {
    (v: Value) => if v == Null || v == Object(map[]) then value else v
  }

  function Apply(config: Value, r: Repair): Result<Value, RepairError> {
    match r
    case RenameKey(from, to) =>
      if config.Object? && from in config.fields then Ok(Object((config.fields - {from})[to := config.fields[from]]))
      else Ok(config)
    case SplitValue(path, delimiter) => Edit(config, Split(path, "."), SplitText(delimiter))
    case SupplyDefault(path, value) => Edit(config, Split(path, "."), Default(value))
  }

  /** What a path leads to. */
  function Lookup(v: Value, path: seq<string>): Option<Value> {
    if path == [] then Some(v)
    else if v.Object? && path[0] in v.fields then Lookup(v.fields[path[0]], path[1..])
    else None
  }

  predicate Diverge(p: seq<string>, q: seq<string>) {
    p != [] && q != [] && (p[0] != q[0] || Diverge(p[1..], q[1..]))
  }

  /** An edit succeeds exactly when the path leads somewhere; it replaces what is
      there and nothing beside it. */
  lemma {:induction false} EditIsLocal(v: Value, path: seq<string>, f: Value -> Value, other: seq<string>)
    ensures Edit(v, path, f).Ok? <==> Lookup(v, path).Some?
    ensures Edit(v, path, f).Ok? ==> Lookup(Edit(v, path, f).value, path) == Some(f(Lookup(v, path).value))
    ensures Edit(v, path, f).Ok? && Diverge(path, other) ==> Lookup(Edit(v, path, f).value, other) == Lookup(v, other)
    decreases |path|
  {
    if path != [] && v.Object? && path[0] in v.fields {
      EditIsLocal(v.fields[path[0]], path[1..], f, if other != [] then other[1..] else []);
    }
  }

  lemma {:induction false} EditTwice(v: Value, path: seq<string>, f: Value -> Value)
    requires forall x :: f(f(x)) == f(x)
    ensures var once := Edit(v, path, f); once.Ok? ==> Edit(once.value, path, f) == once
    decreases |path|
  {
    if path != [] && v.Object? && path[0] in v.fields {
      EditTwice(v.fields[path[0]], path[1..], f);
      var once := Edit(v, path, f);
      if once.Ok? {
        assert once.value.fields[path[0] := once.value.fields[path[0]]] == once.value.fields;
      }
    }
  }

  /** Renaming never fails; the others fail exactly when their path leads
      nowhere, even the one that supplies a default. */
  lemma RepairFailsExactly(config: Value, r: Repair)
    ensures Apply(config, r).Err? <==> !r.RenameKey? && Lookup(config, Split(r.path, ".")).None?
  {
    hide Split;
    if !r.RenameKey? {
      var f := if r.SplitValue? then SplitText(r.delimiter) else Default(r.value);
      EditIsLocal(config, Split(r.path, "."), f, []);
    }
  }

  /** A rename moves one value and leaves every other key alone. */
  lemma RenameMoves(config: Value, from: string, to: string, key: string)
    requires config.Object?
    ensures var after := Apply(config, RenameKey(from, to)).value;
      && after.Object?
      && Lookup(after, [key]) ==
           if from !in config.fields then Lookup(config, [key])
           else if key == to then Lookup(config, [from])
           else if key == from then None
           else Lookup(config, [key])
  {
    hide Split;
    assert [key][1..] == [] && [from][1..] == [];
  }

  /** Splitting turns text at its path into the list of its parts, and a default
      replaces null or an empty object there; both leave anything else, and
      everything beside the path, as it was. */
  lemma RepairsAreLocal(config: Value, r: Repair, other: seq<string>)
    requires !r.RenameKey? && Apply(config, r).Ok?
    ensures var path := Split(r.path, ".");
      var was, now := Lookup(config, path), Lookup(Apply(config, r).value, path);
      && was.Some? && now.Some?
      && (r.SplitValue? && was.value.String? ==>
            && now.value.Array? && |now.value.items| == |Split(was.value.s, r.delimiter)|
            && forall i :: 0 <= i < |now.value.items| ==> now.value.items[i] == String(Split(was.value.s, r.delimiter)[i]))
      && (r.SupplyDefault? && (was.value == Null || was.value == Object(map[])) ==> now.value == r.value)
      && (r.SplitValue? && !was.value.String? ==> now == was)
      && (r.SupplyDefault? && was.value != Null && was.value != Object(map[]) ==> now == was)
      && (Diverge(path, other) ==> Lookup(Apply(config, r).value, other) == Lookup(config, other))
  {
    hide Split, Edit, Lookup, Diverge;
    var f := if r.SplitValue? then SplitText(r.delimiter) else Default(r.value);
    EditIsLocal(config, Split(r.path, "."), f, other);
  }

  /** Applying a repair again changes nothing. */
  lemma RepairTwice(config: Value, r: Repair)
    ensures var once := Apply(config, r); once.Ok? ==> Apply(once.value, r) == once
  {
    hide Split;
    match r
    case RenameKey(from, to) =>
      var once := Apply(config, r);
      if config.Object? && from == to && from in config.fields {
        assert once.value.fields == config.fields;
      }
    case SplitValue(path, delimiter) => EditTwice(config, Split(path, "."), SplitText(delimiter));
    case SupplyDefault(path, value) => EditTwice(config, Split(path, "."), Default(value));
  }

  // ------------------------------------------------------------------
  // Lists of repairs.
  // ------------------------------------------------------------------

  function ApplyAll(config: Value, rs: seq<Repair>): Result<Value, RepairError> {
    if rs == [] then Ok(config)
    else
      var before := ApplyAll(config, rs[..|rs| - 1]);
      if before.Err? then before else Apply(before.value, rs[|rs| - 1])
  }

  function ApplySteps(config: Value, steps: seq<Step>): Result<Value, RepairError> {
    if steps == [] then Ok(config)
    else
      var before := ApplySteps(config, steps[..|steps| - 1]);
      if before.Err? then before else ApplyAll(before.value, steps[|steps| - 1].repairs)
  }

  function RepairsOf(steps: seq<Step>): seq<Repair> {
    if steps == [] then [] else RepairsOf(steps[..|steps| - 1]) + steps[|steps| - 1].repairs
  }

  lemma {:induction false} ApplyAllOfSum(config: Value, a: seq<Repair>, b: seq<Repair>)
    ensures ApplyAll(config, a + b) == (
      var first := ApplyAll(config, a); if first.Err? then first else ApplyAll(first.value, b))
    decreases |b|
  {
    hide Apply;
    if b == [] {
      assert a + b == a;
    } else {
      ApplyAllOfSum(config, a, b[..|b| - 1]);
      assert (a + b)[..|a + b| - 1] == a + b[..|b| - 1];
    }
  }

  /** Steps fold their repairs, all in order. */
  lemma {:induction false} StepsFoldRepairs(config: Value, steps: seq<Step>)
    ensures ApplySteps(config, steps) == ApplyAll(config, RepairsOf(steps))
  {
    hide ApplyAll;
    if steps == [] {
      NothingToRepair(config);
    } else {
      StepsFoldRepairs(config, steps[..|steps| - 1]);
      ApplyAllOfSum(config, RepairsOf(steps[..|steps| - 1]), steps[|steps| - 1].repairs);
    }
  }

  lemma NothingToRepair(config: Value)
    ensures ApplyAll(config, []) == Ok(config)
  {
  }

  /** A list of repairs, each repeatable on its own, need not be: the second
      rename frees the key that the first takes. */
  lemma ListsAreNotRepeatable(config: Value, a: string, b: string, c: string)
    requires a != b && b != c && a != c && config == Object(map[a := Bool(true), c := Bool(false)])
    ensures var rs := [RenameKey(a, b), RenameKey(c, a)];
      var once := ApplyAll(config, rs);
      once.Ok? && ApplyAll(once.value, rs) != once
  {
    var first, second := RenameKey(a, b), RenameKey(c, a);
    var once := Object(map[b := Bool(true), a := Bool(false)]);
    TwoRepairs(config, first, second);
    TwoRepairs(once, first, second);
    assert Apply(config, first).value.fields == map[c := Bool(false), b := Bool(true)];
    assert Apply(Apply(config, first).value, second).value.fields == once.fields;
    assert Apply(once, first).value.fields == map[b := Bool(false)];
  }

  lemma TwoRepairs(config: Value, a: Repair, b: Repair)
    ensures ApplyAll(config, [a, b]) == (
      var first := Apply(config, a); if first.Err? then first else Apply(first.value, b))
  {
    hide Apply;
    assert [a] + [b] == [a, b];
    ApplyAllOfSum(config, [a], [b]);
    OneRepair(config, a);
    if Apply(config, a).Ok? {
      OneRepair(Apply(config, a).value, b);
    }
  }

  lemma OneRepair(config: Value, a: Repair)
    ensures ApplyAll(config, [a]) == Apply(config, a)
  {
    hide Apply;
    assert [a][..0] == [];
  }
}
