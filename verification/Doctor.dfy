/** Fixing a fleet: the chains of all packages applied under an advisory lock,
    against stores whose operations may fail at any point. */
module Doctor {
  import opened Chains
  import opened Json
  import opened Repairs
  import opened Repeats
  import opened Versions
  import opened Wrappers

  datatype Package = Package(
    id: string, installedVersion: Version, config: Value, stateVersion: Version, block: Option<Block>)

  datatype Failure = StoreFailed | AuditFailed | LockFailed | AlreadyRunning

  // ------------------------------------------------------------------
  // The stores.
  // ------------------------------------------------------------------

  /** Installed packages. Operation number `n` fails when `faults(n)`, and then
      changes nothing. */
  class PackageStore {
    const faults: nat -> bool
    var ids: seq<string>
    var packages: map<string, Package>
    var operations: nat

    ghost predicate Valid()
      reads this
    {
      && (forall i, j :: 0 <= i < j < |ids| ==> ids[i] != ids[j])
      && (forall i :: 0 <= i < |ids| ==> ids[i] in packages)
      && (forall id :: id in packages ==> packages[id].id == id)
    }

    constructor (faults: nat -> bool, ids: seq<string>, packages: map<string, Package>)
      requires (forall i, j :: 0 <= i < j < |ids| ==> ids[i] != ids[j])
      requires (forall i :: 0 <= i < |ids| ==> ids[i] in packages)
      requires (forall id :: id in packages ==> packages[id].id == id)
      ensures Valid() && this.faults == faults && this.ids == ids && this.packages == packages && operations == 0
    {
      this.faults, this.ids, this.packages, this.operations := faults, ids, packages, 0;
    }

    method ListInstalled() returns (r: Option<seq<Package>>)
      requires Valid()
      modifies this`operations
      ensures operations == old(operations) + 1 && (r.None? <==> faults(old(operations)))
      ensures r.Some? ==> |r.value| == |ids| && forall i :: 0 <= i < |ids| ==> r.value[i] == packages[ids[i]]
    {
      operations := operations + 1;
      if faults(operations - 1) {
        return None;
      }
      return Some(seq(|ids|, i requires 0 <= i < |ids| && ids[i] in packages reads this => packages[ids[i]]));
    }

    method WriteConfig(id: string, config: Value) returns (ok: bool)
      requires Valid() && id in packages
      modifies this`packages, this`operations
      ensures Valid() && operations == old(operations) + 1 && ok == !faults(old(operations))
      ensures packages == if ok then old(packages)[id := old(packages)[id].(config := config)] else old(packages)
    {
      operations := operations + 1;
      ok := !faults(operations - 1);
      if ok {
        packages := packages[id := packages[id].(config := config)];
      }
    }

    method WriteStateVersion(id: string, version: Version) returns (ok: bool)
      requires Valid() && id in packages
      modifies this`packages, this`operations
      ensures Valid() && operations == old(operations) + 1 && ok == !faults(old(operations))
      ensures packages == if ok then old(packages)[id := old(packages)[id].(stateVersion := version)] else old(packages)
    {
      operations := operations + 1;
      ok := !faults(operations - 1);
      if ok {
        packages := packages[id := packages[id].(stateVersion := version)];
      }
    }
  }

  datatype AuditRecord = FixHalted(id: string, step: Step, repair: Repair, error: RepairError)

  class AuditLedger {
    const faults: nat -> bool
    var records: seq<AuditRecord>
    var operations: nat

    constructor (faults: nat -> bool)
      ensures this.faults == faults && records == [] && operations == 0
    {
      this.faults, records, operations := faults, [], 0;
    }

    method Append(record: AuditRecord) returns (ok: bool)
      modifies this
      ensures operations == old(operations) + 1 && ok == !faults(old(operations))
      ensures records == if ok then old(records) + [record] else old(records)
    {
      operations := operations + 1;
      ok := !faults(operations - 1);
      if ok {
        records := records + [record];
      }
    }
  }

  /** The advisory lock. An attempt may fail outright; a release may too, and
      its failure is ignored. */
  class AdvisoryLock {
    var held: bool
    var releases: nat

    constructor ()
      ensures !held && releases == 0
    {
      held, releases := false, 0;
    }

    method TryAcquire(fails: bool) returns (r: Option<bool>)
      modifies this`held
      ensures r == if fails then None else Some(!old(held))
      ensures held == (old(held) || r == Some(true))
    {
      if fails {
        return None;
      }
      r := Some(!held);
      held := true;
    }

    method Release(fails: bool)
      modifies this
      ensures releases == old(releases) + 1 && held == (fails && old(held))
    {
      releases := releases + 1;
      held := fails && held;
    }
  }

  // ------------------------------------------------------------------
  // One package.
  // ------------------------------------------------------------------

  datatype Outcome =
    | Repaired(step: Step, repair: Repair)
    | RepairFailed(step: Step, repair: Repair, error: RepairError)
    | Migrated(step: Step, migration: Migration)

  function RepairOutcomes(step: Step, n: nat): seq<Outcome>
    requires n <= |step.repairs|
  {
    seq(n, i requires 0 <= i < n => Repaired(step, step.repairs[i]))
  }

  function MigrationOutcomes(step: Step, n: nat): seq<Outcome>
    requires n <= |step.migrations|
  {
    seq(n, i requires 0 <= i < n => Migrated(step, step.migrations[i]))
  }

  function OutcomesOf(steps: seq<Step>): seq<Outcome> {
    if steps == [] then []
    else
      var last := steps[|steps| - 1];
      OutcomesOf(steps[..|steps| - 1]) + RepairOutcomes(last, |last.repairs|) + MigrationOutcomes(last, |last.migrations|)
  }

  /** A package whose config has seen the repairs of the first `c` steps and
      whose state version is that after `d` of them. */
  ghost function Progressed(p: Package, steps: seq<Step>, c: nat, d: nat): Package
    requires c <= |steps| && d <= |steps| && ApplySteps(p.config, steps[..c]).Ok?
  {
    p.(config := ApplySteps(p.config, steps[..c]).value,
       stateVersion := if d == 0 then p.stateVersion else steps[d - 1].to)
  }

  datatype Status = Completed | Halted(step: Step, error: RepairError) | Broken(why: Failure)

  /** Applies one step's repairs in memory; on failure says which repair. */
  method RepairStep(config: Value, step: Step) returns (r: Result<Value, RepairError>, n: nat)
    ensures r == ApplyAll(config, step.repairs)
    ensures if r.Ok? then n == |step.repairs| else n < |step.repairs|
    ensures r.Err? ==> ApplyAll(config, step.repairs[..n]).Ok? && Apply(ApplyAll(config, step.repairs[..n]).value, step.repairs[n]) == r
  {
    hide Apply;
    var now := config;
    n := 0;
    while n < |step.repairs|
      invariant n <= |step.repairs| && ApplyAll(config, step.repairs[..n]) == Ok(now)
    {
      var applied := Apply(now, step.repairs[n]);
      assert step.repairs[..n + 1][..n] == step.repairs[..n];
      if applied.Err? {
        StaysFailed(config, step.repairs, n + 1);
        return applied, n;
      }
      now := applied.value;
      n := n + 1;
    }
    assert step.repairs[..n] == step.repairs;
    return Ok(now), n;
  }

  lemma {:induction false} StaysFailed(config: Value, rs: seq<Repair>, n: nat)
    requires n <= |rs| && ApplyAll(config, rs[..n]).Err?
    ensures ApplyAll(config, rs) == ApplyAll(config, rs[..n])
    decreases |rs|
  {
    hide Apply;
    if n == |rs| {
      assert rs[..n] == rs;
    } else {
      assert rs[..|rs| - 1][..n] == rs[..n];
      StaysFailed(config, rs[..|rs| - 1], n);
    }
  }

  lemma NothingDone(p: Package, steps: seq<Step>)
    ensures OutcomesOf(steps[..0]) == [] && ApplySteps(p.config, steps[..0]) == Ok(p.config)
  {
    assert steps[..0] == [];
  }

  lemma NextStep(p: Package, steps: seq<Step>, k: nat)
    requires k < |steps|
    ensures OutcomesOf(steps[..k + 1]) == OutcomesOf(steps[..k]) + RepairOutcomes(steps[k], |steps[k].repairs|)
                                          + MigrationOutcomes(steps[k], |steps[k].migrations|)
    ensures ApplySteps(p.config, steps[..k + 1]) == (
      var before := ApplySteps(p.config, steps[..k]); if before.Err? then before else ApplyAll(before.value, steps[k].repairs))
  {
    hide ApplyAll;
    assert steps[..k + 1][..k] == steps[..k];
  }

  /** Works through the steps of one package. Whatever happens, config and state
      version are those of completed steps; a failure between the two writes of
      a step can leave the config one step ahead. */
  method FixPackage(store: PackageStore, audit: AuditLedger, p: Package, steps: seq<Step>)
    returns (status: Status, outcomes: seq<Outcome>, ghost c: nat, ghost d: nat)
    requires store.Valid() && p.id in store.packages && store.packages[p.id] == p
    modifies store`packages, store`operations, audit
    ensures store.Valid()
    ensures d <= c <= |steps| && c <= d + 1 && ApplySteps(p.config, steps[..c]).Ok?
    ensures store.packages == old(store.packages)[p.id := Progressed(p, steps, c, d)]
    ensures status.Completed? ==> d == |steps| && outcomes == OutcomesOf(steps) && audit.records == old(audit.records)
    ensures status.Halted? ==>
              && c == d < |steps| && status.step == steps[d] && ApplySteps(p.config, steps[..d + 1]) == Err(status.error)
              && exists n :: 0 <= n < |steps[d].repairs|
                   && outcomes == OutcomesOf(steps[..d]) + RepairOutcomes(steps[d], n) + [RepairFailed(steps[d], steps[d].repairs[n], status.error)]
                   && audit.records == old(audit.records) + [FixHalted(p.id, steps[d], steps[d].repairs[n], status.error)]
    ensures status.Broken? ==> audit.records == old(audit.records)
  {
    hide ApplyAll, ApplySteps, OutcomesOf, RepairOutcomes, MigrationOutcomes;
    var config := p.config;
    outcomes, c, d := [], 0, 0;
    NothingDone(p, steps);
    var k := 0;
    while k < |steps|
      invariant k <= |steps| && c == d == k
      invariant store.Valid() && audit.records == old(audit.records)
      invariant ApplySteps(p.config, steps[..k]) == Ok(config) && outcomes == OutcomesOf(steps[..k])
      invariant store.packages == old(store.packages)[p.id := Progressed(p, steps, k, k)]
    {
      var step := steps[k];
      NextStep(p, steps, k);
      var repaired, n := RepairStep(config, step);
      if repaired.Err? {
        outcomes := outcomes + RepairOutcomes(step, n) + [RepairFailed(step, step.repairs[n], repaired.error)];
        var noted := audit.Append(FixHalted(p.id, step, step.repairs[n], repaired.error));
        if !noted {
          return Broken(AuditFailed), outcomes, c, d;
        }
        return Halted(step, repaired.error), outcomes, c, d;
      }
      config := repaired.value;
      outcomes := outcomes + RepairOutcomes(step, n);
      var written := store.WriteConfig(p.id, config);
      if !written {
        return Broken(StoreFailed), outcomes, c, d;
      }
      c := k + 1;
      outcomes := outcomes + MigrationOutcomes(step, |step.migrations|);
      var advanced := store.WriteStateVersion(p.id, step.to);
      if !advanced {
        return Broken(StoreFailed), outcomes, c, d;
      }
      d := k + 1;
      k := k + 1;
    }
    assert steps[..k] == steps;
    return Completed, outcomes, c, d;
  }

  // ------------------------------------------------------------------
  // The fleet.
  // ------------------------------------------------------------------

  /** The chain of a package, when it has a target, a doctor block and a path. */
  function Planned(p: Package, registry: map<string, Version>): Option<seq<Step>> {
    if p.id !in registry || p.block.None? then None
    else
      var chain := Chain(p.installedVersion, registry[p.id], p.block.value);
      if chain.Ok? then Some(chain.value) else None
  }

  function StepsFor(p: Package, registry: map<string, Version>): seq<Step> {
    var plan := Planned(p, registry);
    if plan.Some? then plan.value else []
  }

  datatype Diagnosis = Diagnosis(id: string, chain: Option<seq<Step>>)

  method Diagnose(store: PackageStore, registry: map<string, Version>) returns (r: Option<seq<Diagnosis>>)
    requires store.Valid()
    modifies store`operations
    ensures r.Some? ==>
              && |r.value| == |store.ids|
              && forall i :: 0 <= i < |store.ids| ==>
                   r.value[i] == Diagnosis(store.ids[i], Planned(store.packages[store.ids[i]], registry))
  {
    hide Chain;
    var installed := store.ListInstalled();
    if installed.None? {
      return None;
    }
    var report: seq<Diagnosis> := [];
    for i := 0 to |installed.value|
      invariant |report| == i
      invariant forall j :: 0 <= j < i ==>
          report[j] == Diagnosis(store.ids[j], Planned(store.packages[store.ids[j]], registry))
    {
      var p := installed.value[i];
      var chain: Option<seq<Step>> := None;
      if p.id in registry && p.block.Some? {
        var computed := ComputeChain(p.installedVersion, registry[p.id], p.block.value);
        chain := if computed.Ok? then Some(computed.value) else None;
      }
      report := report + [Diagnosis(p.id, chain)];
    }
    return Some(report);
  }

  /** The listed package with this id. */
  method FindPackage(list: seq<Package>, id: string) returns (p: Package)
    requires exists i :: 0 <= i < |list| && list[i].id == id
    ensures p in list && p.id == id
  {
    var i := 0;
    while list[i].id != id
      invariant 0 <= i < |list| && exists j :: i <= j < |list| && list[j].id == id
      decreases |list| - i
    {
      i := i + 1;
    }
    return list[i];
  }

  datatype FixResult = FixResult(
    packageResults: seq<(string, seq<Outcome>)>, halted: Option<(string, Step, RepairError)>)

  /** `q` is `p` after the repairs of `c` of its steps and the state versions of
      `d` of them. */
  ghost predicate At(p: Package, q: Package, steps: seq<Step>, c: nat, d: nat) {
    d <= c <= |steps| && ApplySteps(p.config, steps[..c]).Ok? && q == Progressed(p, steps, c, d)
  }

  ghost predicate Untouched(p: Package, q: Package) {
    p == q
  }

  /** Packages before position `at` are fully fixed, the one there is between
      its steps, those after it are as they were. */
  ghost predicate FixedUpTo(before: map<string, Package>, after: map<string, Package>, ids: seq<string>,
                            registry: map<string, Version>, at: nat, c: nat, d: nat)
  {
    && after.Keys == before.Keys && at <= |ids| && (forall i :: 0 <= i < |ids| ==> ids[i] in before)
    && (forall i :: 0 <= i < at ==>
          var steps := StepsFor(before[ids[i]], registry); At(before[ids[i]], after[ids[i]], steps, |steps|, |steps|))
    && (at < |ids| ==> c <= d + 1 && At(before[ids[at]], after[ids[at]], StepsFor(before[ids[at]], registry), c, d))
    && (forall i :: at < i < |ids| ==> Untouched(before[ids[i]], after[ids[i]]))
    && (forall id :: id in before && id !in ids ==> Untouched(before[id], after[id]))
  }

  lemma AtStart(p: Package, steps: seq<Step>)
    ensures At(p, p, steps, 0, 0)
  {
    NothingDone(p, steps);
  }

  lemma FixedAtStart(before: map<string, Package>, ids: seq<string>, registry: map<string, Version>)
    requires forall i :: 0 <= i < |ids| ==> ids[i] in before
    ensures FixedUpTo(before, before, ids, registry, 0, 0, 0)
  {
    if ids != [] {
      AtStart(before[ids[0]], StepsFor(before[ids[0]], registry));
    }
  }

  /** Progress of the package at `at`, from the fleet as the loop finds it. */
  lemma FixedHere(before: map<string, Package>, now: map<string, Package>, after: map<string, Package>, ids: seq<string>,
                  registry: map<string, Version>, at: nat, c: nat, d: nat)
    requires FixedUpTo(before, now, ids, registry, at, 0, 0) && at < |ids| && c <= d + 1
    requires forall i, j :: 0 <= i < j < |ids| ==> ids[i] != ids[j]
    requires ids[at] in after && At(before[ids[at]], after[ids[at]], StepsFor(before[ids[at]], registry), c, d)
    requires after == now[ids[at] := after[ids[at]]]
    ensures FixedUpTo(before, after, ids, registry, at, c, d)
  {
    hide At, StepsFor, Untouched;
  }

  lemma FixedNext(before: map<string, Package>, now: map<string, Package>, ids: seq<string>,
                  registry: map<string, Version>, at: nat, c: nat)
    requires at < |ids| && FixedUpTo(before, now, ids, registry, at, c, c) && c == |StepsFor(before[ids[at]], registry)|
    ensures FixedUpTo(before, now, ids, registry, at + 1, 0, 0)
  {
    hide At, StepsFor;
    if at + 1 < |ids| {
      AtStart(before[ids[at + 1]], StepsFor(before[ids[at + 1]], registry));
    }
  }

  lemma NotYetTouched(before: map<string, Package>, now: map<string, Package>, ids: seq<string>,
                      registry: map<string, Version>, at: nat)
    requires at < |ids| && FixedUpTo(before, now, ids, registry, at, 0, 0)
    ensures now[ids[at]] == before[ids[at]]
  {
    hide StepsFor;
    NothingDone(before[ids[at]], StepsFor(before[ids[at]], registry));
  }

  ghost predicate HaltedAt(p: Package, steps: seq<Step>, d: nat, halted: (string, Step, RepairError)) {
    d < |steps| && halted.0 == p.id && halted.1 == steps[d] && ApplySteps(p.config, steps[..d + 1]) == Err(halted.2)
  }

  /** The results list each finished package with all that was done to it. */
  ghost predicate Reported(results: seq<(string, seq<Outcome>)>, before: map<string, Package>, ids: seq<string>,
                           registry: map<string, Version>, at: nat)
  {
    && |results| == at <= |ids| && (forall i :: 0 <= i < at ==> ids[i] in before)
    && forall i :: 0 <= i < at ==> results[i] == (ids[i], OutcomesOf(StepsFor(before[ids[i]], registry)))
  }

  /** Reads the package anew and works through its steps. */
  method FixListed(store: PackageStore, audit: AuditLedger, id: string, steps: seq<Step>)
    returns (status: Status, outcomes: seq<Outcome>, ghost c: nat, ghost d: nat)
    requires store.Valid() && id in store.ids
    modifies store`packages, store`operations, audit
    ensures store.Valid() && id in store.packages && c <= d + 1
    ensures At(old(store.packages)[id], store.packages[id], steps, c, d)
    ensures store.packages == old(store.packages)[id := store.packages[id]]
    ensures status.Completed? ==> c == d == |steps| && outcomes == OutcomesOf(steps)
    ensures status.Halted? ==> c == d && HaltedAt(old(store.packages)[id], steps, d, (id, status.step, status.error))
  {
    hide OutcomesOf, ApplySteps;
    var installed := store.ListInstalled();
    if installed.None? {
      AtStart(store.packages[id], steps);
      return Broken(StoreFailed), [], 0, 0;
    }
    ghost var i :| 0 <= i < |store.ids| && store.ids[i] == id;
    assert installed.value[i].id == id;
    var p := FindPackage(installed.value, id);
    status, outcomes, c, d := FixPackage(store, audit, p, steps);
  }

  method FixInner(store: PackageStore, audit: AuditLedger, registry: map<string, Version>)
    returns (r: Result<FixResult, Failure>, ghost at: nat, ghost c: nat, ghost d: nat)
    requires store.Valid()
    modifies store`packages, store`operations, audit
    ensures store.Valid() && FixedUpTo(old(store.packages), store.packages, store.ids, registry, at, c, d)
    ensures r.Ok? && r.value.halted.None? ==>
              at == |store.ids| && Reported(r.value.packageResults, old(store.packages), store.ids, registry, at)
    ensures r.Ok? && r.value.halted.Some? ==>
              && at < |store.ids| && c == d && |r.value.packageResults| == at + 1
              && Reported(r.value.packageResults[..at], old(store.packages), store.ids, registry, at)
              && HaltedAt(old(store.packages)[store.ids[at]],
                          StepsFor(old(store.packages)[store.ids[at]], registry), d, r.value.halted.value)
  {
    hide FixedUpTo, StepsFor, OutcomesOf, Planned, Reported, At, HaltedAt;
    ghost var before := store.packages;
    at, c, d := 0, 0, 0;
    FixedAtStart(before, store.ids, registry);
    var report := Diagnose(store, registry);
    if report.None? {
      return Err(StoreFailed), at, c, d;
    }
    var results: seq<(string, seq<Outcome>)> := [];
    NothingReported(before, store.ids, registry);
    for i := 0 to |report.value|
      invariant store.Valid() && at == i == |results| && c == 0 && d == 0
      invariant FixedUpTo(before, store.packages, store.ids, registry, i, 0, 0)
      invariant Reported(results, before, store.ids, registry, i)
    {
      var id, chain := report.value[i].id, report.value[i].chain;
      ghost var sofar := results;
      NotYetTouched(before, store.packages, store.ids, registry, i);
      PlanIsSteps(before[id], registry);
      if chain.None? {
        results := results + [(id, [])];
        NothingPlanned(before[id], registry);
        ReportedNext(sofar, before, store.ids, registry, i);
        FixedNext(before, store.packages, store.ids, registry, i, 0);
        at := i + 1;
        continue;
      }
      ghost var now := store.packages;
      var status, outcomes;
      status, outcomes, c, d := FixListed(store, audit, id, chain.value);
      FixedHere(before, now, store.packages, store.ids, registry, i, c, d);
      if status.Broken? {
        return Err(status.why), at, c, d;
      }
      results := results + [(id, outcomes)];
      if status.Halted? {
        assert results[..i] == sofar;
        return Ok(FixResult(results, Some((id, status.step, status.error)))), at, c, d;
      }
      FixedNext(before, store.packages, store.ids, registry, i, c);
      ReportedNext(sofar, before, store.ids, registry, i);
      at, c, d := i + 1, 0, 0;
    }
    return Ok(FixResult(results, None)), at, c, d;
  }

  lemma NothingReported(before: map<string, Package>, ids: seq<string>, registry: map<string, Version>)
    ensures Reported([], before, ids, registry, 0)
  {
  }

  lemma ReportedNext(results: seq<(string, seq<Outcome>)>, before: map<string, Package>, ids: seq<string>,
                     registry: map<string, Version>, at: nat)
    requires Reported(results, before, ids, registry, at) && at < |ids| && ids[at] in before
    ensures Reported(results + [(ids[at], OutcomesOf(StepsFor(before[ids[at]], registry)))], before, ids, registry, at + 1)
  {
    hide OutcomesOf, StepsFor;
  }

  lemma PlanIsSteps(p: Package, registry: map<string, Version>)
    ensures Planned(p, registry).Some? ==> StepsFor(p, registry) == Planned(p, registry).value
  {
  }

  lemma NothingPlanned(p: Package, registry: map<string, Version>)
    requires Planned(p, registry).None?
    ensures StepsFor(p, registry) == [] && OutcomesOf(StepsFor(p, registry)) == []
  {
  }

  /** The lock is taken before anything is read, and given back whatever the
      fix came to. */
  method Fix(store: PackageStore, audit: AuditLedger, lock: AdvisoryLock, registry: map<string, Version>,
             acquireFails: bool, releaseFails: bool)
    returns (r: Result<FixResult, Failure>, ghost at: nat, ghost c: nat, ghost d: nat)
    requires store.Valid()
    modifies store`packages, store`operations, audit, lock
    ensures store.Valid() && FixedUpTo(old(store.packages), store.packages, store.ids, registry, at, c, d)
    ensures var acquired := !acquireFails && !old(lock.held);
      if acquired then lock.releases == old(lock.releases) + 1 && lock.held == releaseFails
      else
        && r == Err(if acquireFails then LockFailed else AlreadyRunning) && store.packages == old(store.packages)
        && audit.records == old(audit.records) && lock.held == old(lock.held) && lock.releases == old(lock.releases)
    ensures r.Ok? && r.value.halted.None? ==> at == |store.ids|
    ensures r.Ok? && r.value.halted.Some? ==>
              && at < |store.ids| && c == d
              && HaltedAt(old(store.packages)[store.ids[at]],
                          StepsFor(old(store.packages)[store.ids[at]], registry), d, r.value.halted.value)
  {
    hide FixedUpTo, StepsFor, HaltedAt, Reported;
    var acquired := lock.TryAcquire(acquireFails);
    if acquired != Some(true) {
      FixedAtStart(store.packages, store.ids, registry);
      return Err(if acquired.None? then LockFailed else AlreadyRunning), 0, 0, 0;
    }
    r, at, c, d := FixInner(store, audit, registry);
    lock.Release(releaseFails);
  }

  /** A fix leaves the installed version alone, so the next one plans the same
      steps again. */
  lemma NextFixPlansTheSame(p: Package, q: Package, steps: seq<Step>, c: nat, d: nat, registry: map<string, Version>)
    requires At(p, q, steps, c, d)
    ensures Planned(q, registry) == Planned(p, registry)
  {
  }

  // ------------------------------------------------------------------
  // Fixing a second time.
  // ------------------------------------------------------------------

  lemma {:induction false} PrefixSucceeds(config: Value, steps: seq<Step>, n: nat)
    requires n <= |steps| && ApplySteps(config, steps).Ok?
    ensures ApplySteps(config, steps[..n]).Ok?
    decreases |steps|
  {
    hide ApplyAll;
    if n == |steps| {
      assert steps[..n] == steps;
    } else {
      PrefixSucceeds(config, steps[..|steps| - 1], n);
      assert steps[..|steps| - 1][..n] == steps[..n];
    }
  }

  /** A package fixed once: its config is the fold of all repairs, so fixing it
      again leaves it unchanged, or halts, as applying them again does. */
  lemma SecondFixOfPackage(p: Package, q: Package, steps: seq<Step>)
    requires At(p, q, steps, |steps|, |steps|)
    ensures ApplyAll(p.config, RepairsOf(steps)) == Ok(q.config)
    ensures ApplyAll(q.config, RepairsOf(steps)) == Ok(q.config) <==> At(q, q, steps, |steps|, |steps|)
    ensures ApplyAll(q.config, RepairsOf(steps)).Err? <==>
            exists d: nat, halted :: HaltedAt(q, steps, d, halted) && ApplySteps(q.config, steps[..d]).Ok?
    ensures Repeatable(RepairsOf(steps)) ==> ApplyAll(q.config, RepairsOf(steps)) == Ok(q.config)
  {
    hide ApplyAll, ApplySteps, Repeatable;
    assert steps[..|steps|] == steps;
    StepsFoldRepairs(p.config, steps);
    StepsFoldRepairs(q.config, steps);
    if ApplySteps(q.config, steps).Err? {
      var d := FirstFailure(q.config, steps);
      assert HaltedAt(q, steps, d, (q.id, steps[d], ApplySteps(q.config, steps[..d + 1]).error));
    }
    if d: nat, halted :| HaltedAt(q, steps, d, halted) && ApplySteps(q.config, steps).Ok? {
      PrefixSucceeds(q.config, steps, d + 1);
    }
    if Repeatable(RepairsOf(steps)) {
      RepeatableListsRepeat(p.config, RepairsOf(steps));
    }
  }

  lemma {:induction false} FirstFailure(config: Value, steps: seq<Step>) returns (d: nat)
    requires ApplySteps(config, steps).Err?
    ensures d < |steps| && ApplySteps(config, steps[..d]).Ok? && ApplySteps(config, steps[..d + 1]).Err?
  {
    hide ApplyAll;
    var n := |steps| - 1;
    if ApplySteps(config, steps[..n]).Ok? {
      d := n;
      assert steps[..n + 1] == steps;
    } else {
      d := FirstFailure(config, steps[..n]);
      assert steps[..n][..d] == steps[..d] && steps[..n][..d + 1] == steps[..d + 1];
    }
  }

  /** Where the repairs of every package are repeatable, a second fix of a fixed
      fleet never halts, and once through it has changed nothing. */
  lemma SecondFixIsHarmless(before: map<string, Package>, mid: map<string, Package>, after: map<string, Package>,
                            ids: seq<string>, registry: map<string, Version>, at: nat, c: nat, d: nat)
    requires FixedUpTo(before, mid, ids, registry, |ids|, 0, 0) && FixedUpTo(mid, after, ids, registry, at, c, d)
    requires forall i :: 0 <= i < |ids| ==> Repeatable(RepairsOf(StepsFor(before[ids[i]], registry)))
    ensures at < |ids| ==> forall halted :: !HaltedAt(mid[ids[at]], StepsFor(mid[ids[at]], registry), d, halted)
    ensures at == |ids| ==> after == mid
  {
    hide StepsFor, At, RepairsOf, Repeatable, HaltedAt;
    forall i | 0 <= i < |ids| ensures StepsFor(mid[ids[i]], registry) == StepsFor(before[ids[i]], registry) {
      SamePlan(before[ids[i]], mid[ids[i]], registry);
    }
    if at < |ids| {
      NeverHalts(before[ids[at]], mid[ids[at]], StepsFor(before[ids[at]], registry), d);
    } else {
      forall i | 0 <= i < |ids| ensures after[ids[i]] == mid[ids[i]] {
        StaysAsItIs(before[ids[i]], mid[ids[i]], after[ids[i]], StepsFor(before[ids[i]], registry));
      }
      forall id | id in mid ensures after[id] == mid[id] {
        assert id in ids ==> exists i :: 0 <= i < |ids| && ids[i] == id;
      }
    }
  }

  lemma SamePlan(p: Package, q: Package, registry: map<string, Version>)
    requires var steps := StepsFor(p, registry); At(p, q, steps, |steps|, |steps|)
    ensures StepsFor(q, registry) == StepsFor(p, registry)
  {
    hide Chain, ApplySteps;
  }

  lemma NeverHalts(p: Package, q: Package, steps: seq<Step>, d: nat)
    requires At(p, q, steps, |steps|, |steps|) && Repeatable(RepairsOf(steps))
    ensures forall halted :: !HaltedAt(q, steps, d, halted)
  {
    hide ApplyAll, ApplySteps, Repeatable, RepairsOf;
    SecondFixOfPackage(p, q, steps);
    StepsFoldRepairs(q.config, steps);
    if d < |steps| {
      PrefixSucceeds(q.config, steps, d + 1);
    }
  }

  lemma StaysAsItIs(p: Package, q: Package, r: Package, steps: seq<Step>)
    requires At(p, q, steps, |steps|, |steps|) && At(q, r, steps, |steps|, |steps|) && Repeatable(RepairsOf(steps))
    ensures r == q
  {
    hide ApplyAll, ApplySteps, Repeatable, RepairsOf;
    assert steps[..|steps|] == steps;
    SecondFixOfPackage(p, q, steps);
    StepsFoldRepairs(q.config, steps);
  }

  /** A package one version behind, whose block supplies a default and then renames
      its key: the plan is one step, fixed once, and every fix after it plans the
      step again and halts. */
  lemma SecondFixHalts(p: Package, to: Version, a: string, b: string, value: Value, registry: map<string, Version>)
    requires a != b && '.' !in a && p.config == Object(map[a := Null])
    requires p.block == Some(Block(map[to := [SupplyDefault(a, value), RenameKey(a, b)]], [to], []))
    requires p.id in registry && registry[p.id] == to && Precedes(p.installedVersion, to)
    ensures exists q: Package, halted ::
              && At(p, q, StepsFor(p, registry), 1, 1) && StepsFor(q, registry) == StepsFor(p, registry)
              && HaltedAt(q, StepsFor(q, registry), 0, halted)
  {
    hide ApplyAll, Precedes, Chain;
    var step := Step(p.installedVersion, to, [SupplyDefault(a, value), RenameKey(a, b)], []);
    var steps := [step];
    ChainOfOne(p.installedVersion, to, step.repairs);
    SecondTimeFails(a, b, value);
    OneStep(p.config, step);
    OneStep(Object(map[b := value]), step);
    assert steps[..1] == steps;
    var q := p.(config := Object(map[b := value]), stateVersion := to);
    assert StepsFor(p, registry) == steps && StepsFor(q, registry) == steps;
    assert At(p, q, steps, 1, 1);
    assert HaltedAt(q, StepsFor(q, registry), 0, (q.id, step, ApplySteps(q.config, steps).error));
  }

  lemma OneStep(config: Value, step: Step)
    ensures ApplySteps(config, [step]) == ApplyAll(config, step.repairs)
  {
    hide ApplyAll;
    assert [step][..0] == [];
  }
}
