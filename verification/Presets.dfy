/** Permission presets: a ladder of stances, each resolving into deny-only
    guards. */
module Presets {
  import opened Effects
  import Json

  const CLI_TOOL := "run_cli"

  datatype Call = Call(tool: string, arguments: Json.Value, effect: Effect, scope: string)

  datatype CliMode = Disabled | ReadOnlyCli | Jailed | Shell {
    function Rank(): nat {
      match this
      case Disabled => 0
      case ReadOnlyCli => 1
      case Jailed => 2
      case Shell => 3
    }

    function Min(other: CliMode): CliMode {
      if Rank() <= other.Rank() then this else other
    }
  }

  datatype Posture = AutoDeny | Ask | AllowOnce {
    function Rank(): nat {
      match this
      case AutoDeny => 0
      case Ask => 1
      case AllowOnce => 2
    }

    function Min(other: Posture): Posture {
      if Rank() <= other.Rank() then this else other
    }
  }

  /** The ask guard holds what its answerer decides; without an answerer every
      ask is refused. */
  datatype Guard =
    | EffectCeiling(ceiling: Effect)
    | CliGuard(mode: CliMode)
    | AskGuard(grants: Call -> bool)

  predicate Denies(g: Guard, call: Call) {
    match g
    case EffectCeiling(ceiling) => call.effect.Rank() > ceiling.Rank()
    case CliGuard(mode) =>
      call.tool == CLI_TOOL && (
        match mode
        case Disabled => true
        case ReadOnlyCli => call.effect != ReadOnly
        case Jailed => call.arguments.Object? && "command" in call.arguments.fields
        case Shell => false)
    case AskGuard(grants) => !call.effect.FreelyRepeatable() && !grants(call)
  }

  /** Guards compose by any denial denying. */
  predicate Admits(guards: seq<Guard>, call: Call) {
    forall i :: 0 <= i < |guards| ==> !Denies(guards[i], call)
  }

  datatype Preset = ReadOnlyPreset | WorkspaceAsk | Workspace | FullAccess {
    function Rank(): nat {
      match this
      case ReadOnlyPreset => 0
      case WorkspaceAsk => 1
      case Workspace => 2
      case FullAccess => 3
    }

    function Intersect(other: Preset): Preset {
      if Rank() <= other.Rank() then this else other
    }

    function CliModeOf(): CliMode {
      match this
      case ReadOnlyPreset => Disabled
      case WorkspaceAsk => Jailed
      case Workspace => Jailed
      case FullAccess => Shell
    }

    function PostureOf(): Posture {
      match this
      case ReadOnlyPreset => AutoDeny
      case WorkspaceAsk => Ask
      case Workspace => AllowOnce
      case FullAccess => AllowOnce
    }

    function Resolve(grants: Call -> bool): Resolution {
      var ceiling := if ReadOnlyPreset? then [EffectCeiling(ReadOnly)] else [];
      var cli := if CliModeOf() != Shell then [CliGuard(CliModeOf())] else [];
      var ask := if PostureOf() == Ask then [AskGuard(grants)] else [];
      Resolution(this, CliModeOf(), PostureOf(), ceiling + cli + ask)
    }
  }

  datatype Resolution = Resolution(preset: Preset, cliMode: CliMode, posture: Posture, guards: seq<Guard>) {
    function Intersect(other: Resolution): Resolution {
      Resolution(preset.Intersect(other.preset), cliMode.Min(other.cliMode), posture.Min(other.posture),
                 guards + other.guards)
    }
  }

  /** What a preset lets through, spelled out. */
  predicate Stance(p: Preset, grants: Call -> bool, call: Call) {
    match p
    case ReadOnlyPreset => call.effect.Rank() <= ReadOnly.Rank() && call.tool != CLI_TOOL
    case WorkspaceAsk => NoShellPayload(call) && (call.effect.FreelyRepeatable() || grants(call))
    case Workspace => NoShellPayload(call)
    case FullAccess => true
  }

  predicate NoShellPayload(call: Call) {
    call.tool == CLI_TOOL ==> !(call.arguments.Object? && "command" in call.arguments.fields)
  }

  lemma AdmitsAtMostTwo(g: Guard, h: Guard, call: Call)
    ensures Admits([], call)
    ensures Admits([g], call) <==> !Denies(g, call)
    ensures Admits([g, h], call) <==> !Denies(g, call) && !Denies(h, call)
  {
    hide Denies;
    assert [g][0] == g && [g, h][0] == g && [g, h][1] == h;
  }

  lemma GuardsAreTheStance(p: Preset, grants: Call -> bool, call: Call)
    ensures Admits(p.Resolve(grants).guards, call) <==> Stance(p, grants, call)
  {
    hide Admits;
    var gs := p.Resolve(grants).guards;
    AdmitsAtMostTwo(EffectCeiling(ReadOnly), CliGuard(Disabled), call);
    AdmitsAtMostTwo(CliGuard(Jailed), AskGuard(grants), call);
    match p
    case ReadOnlyPreset => assert gs == [EffectCeiling(ReadOnly), CliGuard(Disabled)];
    case WorkspaceAsk => assert gs == [CliGuard(Jailed), AskGuard(grants)];
    case Workspace => assert gs == [CliGuard(Jailed)];
    case FullAccess => assert gs == [];
  }

  lemma UnionAdmitsBoth(a: seq<Guard>, b: seq<Guard>, call: Call)
    ensures Admits(a + b, call) <==> Admits(a, call) && Admits(b, call)
  {
    hide Denies;
    if Admits(a + b, call) {
      assert forall i :: 0 <= i < |a| ==> (a + b)[i] == a[i];
      assert forall i :: 0 <= i < |b| ==> (a + b)[|a| + i] == b[i];
    }
  }

  /** Both ways of composing two presets admit exactly what each admits alone,
      and agree on the preset, the CLI mode and the posture. */
  lemma CompositionIsRestrictive(p: Preset, q: Preset, grants: Call -> bool, call: Call)
    ensures var both := p.Resolve(grants).Intersect(q.Resolve(grants));
      var met := p.Intersect(q).Resolve(grants);
      && (Admits(met.guards, call)
          <==> Admits(p.Resolve(grants).guards, call) && Admits(q.Resolve(grants).guards, call))
      && (Admits(both.guards, call) <==> Admits(met.guards, call))
      && both.preset == met.preset && both.cliMode == met.cliMode && both.posture == met.posture
  {
    hide Admits, Denies;
    GuardsAreTheStance(p, grants, call);
    GuardsAreTheStance(q, grants, call);
    GuardsAreTheStance(p.Intersect(q), grants, call);
    UnionAdmitsBoth(p.Resolve(grants).guards, q.Resolve(grants).guards, call);
  }

  /** Each ladder, its lowest rung first. */
  const CLI_MODES: seq<CliMode> := [Disabled, ReadOnlyCli, Jailed, Shell]
  const POSTURES: seq<Posture> := [AutoDeny, Ask, AllowOnce]
  const PRESETS: seq<Preset> := [ReadOnlyPreset, WorkspaceAsk, Workspace, FullAccess]

  /** Of two rungs the lower is kept, whichever comes first. */
  lemma LowerRungIsKept(i: nat, j: nat)
    requires i <= j
    ensures j < 4 ==> CLI_MODES[i].Min(CLI_MODES[j]) == CLI_MODES[j].Min(CLI_MODES[i]) == CLI_MODES[i]
    ensures j < 3 ==> POSTURES[i].Min(POSTURES[j]) == POSTURES[j].Min(POSTURES[i]) == POSTURES[i]
    ensures j < 4 ==> PRESETS[i].Intersect(PRESETS[j]) == PRESETS[j].Intersect(PRESETS[i]) == PRESETS[i]
  {
  }

  /** No CLI mode touches other tools; the shell denies nothing, and no CLI at all
      denies whatever any mode does. */
  lemma CliModesAreBetween(mode: CliMode, call: Call)
    ensures Denies(CliGuard(Shell), call) ==> Denies(CliGuard(mode), call)
    ensures Denies(CliGuard(mode), call) ==> Denies(CliGuard(Disabled), call)
    ensures Denies(CliGuard(Disabled), call) <==> call.tool == "run_cli"
    ensures Denies(CliGuard(ReadOnlyCli), call) <==> call.tool == "run_cli" && !call.effect.ReadOnly?
    ensures !Denies(CliGuard(Shell), call)
  {
  }

  /** Any number of resolutions, each with its own answerer, compose to what all
      of them admit. */
  function Composed(rs: seq<Resolution>): Resolution
    requires rs != []
  {
    if |rs| == 1 then rs[0] else Composed(rs[..|rs| - 1]).Intersect(rs[|rs| - 1])
  }

  lemma {:induction false} ComposedAdmitsAll(rs: seq<Resolution>, call: Call)
    requires rs != []
    ensures Admits(Composed(rs).guards, call) <==> forall i :: 0 <= i < |rs| ==> Admits(rs[i].guards, call)
  {
    hide Admits;
    if |rs| > 1 {
      var init, last := rs[..|rs| - 1], rs[|rs| - 1];
      ComposedAdmitsAll(init, call);
      UnionAdmitsBoth(Composed(init).guards, last.guards, call);
      assert forall i :: 0 <= i < |init| ==> init[i] == rs[i];
    }
  }
}
