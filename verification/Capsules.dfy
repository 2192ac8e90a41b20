/** Capsule manifests: admission, narrowing by overlays, and the content
    address. */
module Capsules {
  import opened Effects
  import opened Grants
  import opened Sorting
  import opened Texts
  import opened Widening
  import opened Wrappers
  import Json

  const WORLD_V1 := "rusty:capsule/world@0.1.0"

  datatype Budget = Budget(
    fuel: Option<nat>, maxMemoryBytes: Option<nat>, wallTimeMs: Option<nat>, maxTokens: Option<nat>,
    maxCostUsd: Option<real>, maxOutputBytes: Option<nat>)

  datatype Manifest = Manifest(
    name: string, description: Option<string>, version: string, buildDigest: string,
    world: string, inputSchema: Option<Json.Value>, outputSchema: Option<Json.Value>,
    effects: set<Effect>, capabilities: set<Grant>, budget: Budget)

  // ------------------------------------------------------------------
  // Implied effects.
  // ------------------------------------------------------------------

  predicate IsReadOnlyMethod(verb: string) {
    verb == "GET" || verb == "HEAD" || verb == "OPTIONS"
  }

  function Implied(g: Grant): Effect {
    match g
    case Filesystem(_, mode) => if mode.Read? then ReadOnly else NonIdempotent
    case Network(_, _, methods) =>
      if forall x :: x in methods ==> IsReadOnlyMethod(x) then ReadOnly else NonIdempotent
    case Secret(_) => ReadOnly
    case Tool(_) => NonIdempotent
    case Model(_) => NonIdempotent
    case Clock => ReadOnly
  }

  /** The most severe class of a set; `Pure` when there is none. */
  function Top(effects: set<Effect>): (top: Effect)
    ensures forall e :: e in effects ==> e.Rank() <= top.Rank()
    ensures effects != {} ==> top in effects
  {
    if NonIdempotent in effects then NonIdempotent
    else if Compensatable in effects then Compensatable
    else if Idempotent in effects then Idempotent
    else if ReadOnly in effects then ReadOnly
    else
      assert forall e :: e in effects ==> e == Pure;
      Pure
  }

  function ImpliedBy(gs: set<Grant>): set<Effect> {
    set g | g in gs :: Implied(g)
  }

  // ------------------------------------------------------------------
  // Admission.
  // ------------------------------------------------------------------

  predicate IsAlphanumeric(c: char) {
    'a' <= c <= 'z' || 'A' <= c <= 'Z' || '0' <= c <= '9'
  }

  predicate IsToken(s: string) {
    0 < |s| <= 128 && forall c :: c in s ==> IsAlphanumeric(c) || c == '_' || c == '-' || c == '.'
  }

  predicate IsHost(s: string) {
    0 < |s| <= 253 && forall c :: c in s ==> IsAlphanumeric(c) || c == '.' || c == '-'
  }

  predicate IsProtocol(s: string) {
    s != [] && forall c :: c in s ==> 'a' <= c <= 'z'
  }

  predicate IsMethodName(s: string) {
    s != [] && forall c :: c in s ==> 'A' <= c <= 'Z'
  }

  /** Some `/`-separated segment of the path is exactly two dots. */
  predicate Climbs(path: string) {
    exists i, j :: 0 <= i <= j <= |path| && IsSegment(path, '/', i, j) && path[i..j] == ".."
  }

  predicate IsPath(path: string) {
    path != [] && path[0] == '/' && !Climbs(path)
  }

  predicate All(list: seq<string>, ok: string -> bool) {
    list != [] && forall x :: x in list ==> ok(x)
  }

  predicate ValidGrant(g: Grant) {
    match g
    case Filesystem(paths, _) => All(paths, IsPath)
    case Network(hosts, protocols, methods) => All(hosts, IsHost) && All(protocols, IsProtocol) && All(methods, IsMethodName)
    case Secret(handles) => All(handles, IsToken)
    case Tool(tools) => All(tools, IsToken)
    case Model(models) => All(models, IsToken)
    case Clock => true
  }

  ghost predicate Alphanumeric(c: char) {
    Small(c) || Capital(c) || Numeric(c)
  }

  /** Scope items, spelled out: absolute paths none of whose parts is two dots, host
      names, protocol and method names, and names of secrets, tools and models. */
  ghost predicate PathScope(s: string) {
    s != "" && s[0] == '/' && ".." !in Split(s, "/")
  }

  ghost predicate HostScope(s: string) {
    1 <= |s| <= 253 && forall c :: c in s ==> Alphanumeric(c) || c == '.' || c == '-'
  }

  ghost predicate NameScope(s: string) {
    1 <= |s| <= 128 && forall c :: c in s ==> Alphanumeric(c) || c == '_' || c == '-' || c == '.'
  }

  ghost predicate ProtocolScope(s: string) {
    1 <= |s| && forall c :: c in s ==> Small(c)
  }

  ghost predicate MethodScope(s: string) {
    1 <= |s| && forall c :: c in s ==> Capital(c)
  }

  ghost predicate DigestText(s: string) {
    |s| == 64 && forall c :: c in s ==> SmallHex(c)
  }

  lemma ScopesExactly(s: string)
    ensures IsPath(s) <==> PathScope(s)
    ensures IsHost(s) <==> HostScope(s)
    ensures IsToken(s) <==> NameScope(s)
    ensures IsProtocol(s) <==> ProtocolScope(s)
    ensures IsMethodName(s) <==> MethodScope(s)
    ensures IsDigest(s) <==> DigestText(s)
  {
    hide Small, Capital, Numeric, SmallHex, Split, IsSegment;
    PartsAreSegments(s, '/', "..");
    forall c | c in s
      ensures (Small(c) <==> 'a' <= c <= 'z') && (Capital(c) <==> 'A' <= c <= 'Z') && (Numeric(c) <==> '0' <= c <= '9')
      ensures SmallHex(c) <==> '0' <= c <= '9' || 'a' <= c <= 'f'
    {
      Alphabets(c);
    }
  }

  /** A grant is valid exactly when each of its scopes is not empty and every item
      of it is of its kind. */
  lemma ValidGrantExactly(g: Grant)
    ensures ValidGrant(g) <==>
            match g
            case Filesystem(paths, _) => paths != [] && forall x :: x in paths ==> PathScope(x)
            case Network(hosts, protocols, methods) =>
              && hosts != [] && protocols != [] && methods != [] && (forall x :: x in hosts ==> HostScope(x))
              && (forall x :: x in protocols ==> ProtocolScope(x)) && (forall x :: x in methods ==> MethodScope(x))
            case Secret(handles) => handles != [] && forall x :: x in handles ==> NameScope(x)
            case Tool(tools) => tools != [] && forall x :: x in tools ==> NameScope(x)
            case Model(models) => models != [] && forall x :: x in models ==> NameScope(x)
            case Clock => true
  {
    hide IsPath, IsHost, IsToken, IsProtocol, IsMethodName, PathScope, HostScope, NameScope, ProtocolScope, MethodScope;
    forall s: string
      ensures IsPath(s) <==> PathScope(s)
      ensures IsHost(s) <==> HostScope(s)
      ensures IsToken(s) <==> NameScope(s)
      ensures IsProtocol(s) <==> ProtocolScope(s)
      ensures IsMethodName(s) <==> MethodScope(s)
    {
      ScopesExactly(s);
    }
  }

  datatype Refusal =
    | BadName
    | BadVersion
    | UnsupportedWorld
    | BadDigest
    | NoEffects
    | BadGrant
    | EffectsTooLow(declared: Effect, implied: Effect)
    | BadBudget

  predicate IsDigest(s: string) {
    |s| == 64 && forall c :: c in s ==> '0' <= c <= '9' || 'a' <= c <= 'f'
  }

  function Validate(m: Manifest): Option<Refusal> {
    if !IsToken(m.name) then Some(BadName)
    else if !IsToken(m.version) then Some(BadVersion)
    else if m.world != WORLD_V1 then Some(UnsupportedWorld)
    else if !IsDigest(m.buildDigest) then Some(BadDigest)
    else if m.effects == {} then Some(NoEffects)
    else if exists g :: g in m.capabilities && !ValidGrant(g) then Some(BadGrant)
    else
      var declared, implied := Top(m.effects), Top(ImpliedBy(m.capabilities));
      if declared.Rank() < implied.Rank() then Some(EffectsTooLow(declared, implied))
      else if m.budget.maxCostUsd.Some? && m.budget.maxCostUsd.value < 0.0 then Some(BadBudget)
      else None
  }

  predicate Admitted(m: Manifest) {
    Validate(m).None?
  }

  /** What lets a capsule change the world: writing files, requests other than the
      three safe ones, and any tool or model. */
  ghost predicate MayChange(g: Grant) {
    || (g.Filesystem? && g.mode != Read)
    || (g.Network? && exists verb :: verb in g.methods && verb !in {"GET", "HEAD", "OPTIONS"})
    || g.Tool? || g.Model?
  }

  lemma ImpliedExactly(g: Grant)
    ensures Implied(g) == if MayChange(g) then NonIdempotent else ReadOnly
  {
  }

  /** Admission, spelled out: every grant is well formed, what it may change is
      declared, and what it may read is too. */
  lemma AdmittedExactly(m: Manifest)
    ensures Admitted(m) <==>
            && NameScope(m.name) && NameScope(m.version) && m.world == "rusty:capsule/world@0.1.0"
            && DigestText(m.buildDigest) && m.effects != {}
            && (forall g :: g in m.capabilities ==>
                  ValidGrant(g) && if MayChange(g) then NonIdempotent in m.effects else m.effects != {Pure})
            && (m.budget.maxCostUsd.Some? ==> m.budget.maxCostUsd.value >= 0.0)
  {
    hide IsToken, IsDigest, NameScope, DigestText, ValidGrant, Implied, Top, MayChange;
    ScopesExactly(m.name);
    ScopesExactly(m.version);
    ScopesExactly(m.buildDigest);
    var declared, implied := Top(m.effects), Top(ImpliedBy(m.capabilities));
    forall g | g in m.capabilities
      ensures Implied(g) in ImpliedBy(m.capabilities)
      ensures Implied(g) == if MayChange(g) then NonIdempotent else ReadOnly
    {
      ImpliedExactly(g);
    }
    TopOfPureIsPure();
    if m.effects != {} {
      TopExactly(m.effects);
    }
  }

  lemma TopExactly(effects: set<Effect>)
    requires effects != {}
    ensures Top(effects) == NonIdempotent <==> NonIdempotent in effects
    ensures Top(effects) == Pure <==> effects == {Pure}
  {
    hide Top;
    assert Top(effects) in effects;
  }

  /** What is wrong with a manifest, each fault by itself. */
  ghost predicate Faulty(m: Manifest, e: Refusal) {
    match e
    case BadName => !IsToken(m.name)
    case BadVersion => !IsToken(m.version)
    case UnsupportedWorld => m.world != WORLD_V1
    case BadDigest => !IsDigest(m.buildDigest)
    case NoEffects => m.effects == {}
    case BadGrant => exists g :: g in m.capabilities && !ValidGrant(g)
    case EffectsTooLow(declared, implied) =>
      && declared in m.effects && (forall f :: f in m.effects ==> f.Rank() <= declared.Rank())
      && (exists g :: g in m.capabilities && Implied(g) == implied)
      && (forall g :: g in m.capabilities ==> Implied(g).Rank() <= implied.Rank())
      && declared.Rank() < implied.Rank()
    case BadBudget => m.budget.maxCostUsd.Some? && m.budget.maxCostUsd.value < 0.0
  }

  /** The order in which faults are reported. */
  ghost function Turn(e: Refusal): nat {
    match e
    case BadName => 0
    case BadVersion => 1
    case UnsupportedWorld => 2
    case BadDigest => 3
    case NoEffects => 4
    case BadGrant => 5
    case EffectsTooLow(_, _) => 6
    case BadBudget => 7
  }

  /** The classes reported are the highest declared and the highest implied. */
  lemma EffectsFault(m: Manifest, e: Refusal)
    requires e.EffectsTooLow? && m.effects != {}
    ensures var declared, implied := Top(m.effects), Top(ImpliedBy(m.capabilities));
      Faulty(m, e) <==> e == EffectsTooLow(declared, implied) && declared.Rank() < implied.Rank()
  {
    hide Top, Implied;
    var declared, implied := Top(m.effects), Top(ImpliedBy(m.capabilities));
    TopOfPureIsPure();
    assert forall g :: g in m.capabilities ==> Implied(g) in ImpliedBy(m.capabilities);
    assert ImpliedBy(m.capabilities) != {} ==> exists g :: g in m.capabilities && Implied(g) == implied;
  }

  /** The refusal is the first fault there is, and there is one if there is any. */
  lemma FirstFaultIsReported(m: Manifest)
    ensures Validate(m).None? <==> forall e :: !Faulty(m, e)
    ensures Validate(m).Some? ==>
              Faulty(m, Validate(m).value) && forall e :: Faulty(m, e) ==> Turn(Validate(m).value) <= Turn(e)
  {
    hide IsToken, IsDigest, ValidGrant, Implied, Top, ImpliedBy;
    if m.effects != {} {
      var low := EffectsTooLow(Top(m.effects), Top(ImpliedBy(m.capabilities)));
      EffectsFault(m, low);
      forall e: Refusal | e.EffectsTooLow? ensures Faulty(m, e) ==> e == low {
        EffectsFault(m, e);
      }
    }
    assert Validate(m).None? ==>
        !Faulty(m, BadName) && !Faulty(m, BadVersion) && !Faulty(m, UnsupportedWorld) && !Faulty(m, BadDigest)
        && !Faulty(m, NoEffects) && !Faulty(m, BadGrant) && !Faulty(m, BadBudget);
    assert Validate(m).Some? ==> Faulty(m, Validate(m).value);
  }

  // ------------------------------------------------------------------
  // Narrowing never escalates.
  // ------------------------------------------------------------------

  lemma NarrowedGrantIsValid(g: Grant, m: Grant)
    requires ValidGrant(m) && Within(g, m) && NonEmptyScopes(g)
    ensures ValidGrant(g)
  {
    hide IsPath, IsHost, IsProtocol, IsMethodName, IsToken;
  }

  lemma NarrowedGrantImpliesLess(g: Grant, m: Grant)
    requires Within(g, m)
    ensures Implied(g).Rank() <= Implied(m).Rank()
  {
    hide IsReadOnlyMethod;
  }

  /** An admitted manifest stays admitted under any overlays. */
  lemma NarrowingStaysAdmitted(m: Manifest, overlays: seq<set<Grant>>)
    requires Admitted(m)
    ensures Admitted(m.(capabilities := Effective(m.capabilities, overlays)))
  {
    hide Effective, ValidGrant, Implied, Within, Top;
    var narrowed := Effective(m.capabilities, overlays);
    forall g | g in narrowed ensures ValidGrant(g) && Implied(g).Rank() <= Top(ImpliedBy(m.capabilities)).Rank() {
      var from := EffectiveNarrows(m.capabilities, overlays, g);
      NarrowedGrantImpliesLess(g, from);
      assert Implied(from) in ImpliedBy(m.capabilities);
      if g != from {
        NarrowedGrantIsValid(g, from);
      }
    }
    TopOfPureIsPure();
    if narrowed != {} {
      var g :| g in narrowed;
      assert Implied(g) in ImpliedBy(narrowed);
    }
  }

  lemma TopOfPureIsPure()
    ensures Top({}) == Pure
  {
  }

  // ------------------------------------------------------------------
  // The content address.
  // ------------------------------------------------------------------

  function Sorted(list: seq<string>): seq<string> {
    Canonical(list, Below)
  }

  function CanonicalGrant(g: Grant): Grant {
    match g
    case Filesystem(paths, mode) => Filesystem(Sorted(paths), mode)
    case Network(hosts, protocols, methods) => Network(Sorted(hosts), Sorted(protocols), Sorted(methods))
    case Secret(handles) => Secret(Sorted(handles))
    case Tool(tools) => Tool(Sorted(tools))
    case Model(models) => Model(Sorted(models))
    case Clock => Clock
  }

  function CanonicalGrants(gs: set<Grant>): set<Grant> {
    set g | g in gs :: CanonicalGrant(g)
  }

  function Canonicalized(m: Manifest): Manifest {
    m.(capabilities := CanonicalGrants(m.capabilities))
  }

  function CapsuleId<Id>(m: Manifest, hash: Manifest -> Id): Id {
    hash(Canonicalized(m))
  }

  lemma SortedHasTheSameItems(list: seq<string>)
    ensures Elements(Sorted(list)) == Elements(list)
    ensures forall x :: x in Sorted(list) <==> x in list
    ensures Sorted(list) == [] <==> list == []
    ensures Sorted(Sorted(list)) == Sorted(list)
  {
    TextOrder();
    CanonicalAscends(list, Below);
    CanonicalIsTheSet(Sorted(list), list, Below);
    assert forall x :: x in Sorted(list) <==> x in Elements(Sorted(list));
    assert forall x :: x in list <==> x in Elements(list);
    assert list != [] ==> list[0] in Elements(list);
    assert Sorted(list) != [] ==> Sorted(list)[0] in Elements(list);
  }

  lemma CanonicalGrantIsTheSame(g: Grant)
    ensures CanonicalGrant(CanonicalGrant(g)) == CanonicalGrant(g)
    ensures forall p :: Covers(CanonicalGrant(g), p) <==> Covers(g, p)
    ensures ValidGrant(CanonicalGrant(g)) <==> ValidGrant(g)
    ensures Implied(CanonicalGrant(g)) == Implied(g)
  {
    hide Sorted, IsPath, IsHost, IsProtocol, IsMethodName, IsToken, IsReadOnlyMethod;
    forall list: seq<string>
      ensures forall x :: x in Sorted(list) <==> x in list
      ensures Sorted(list) == [] <==> list == []
      ensures Sorted(Sorted(list)) == Sorted(list)
    {
      SortedHasTheSameItems(list);
    }
  }

  lemma CanonicalGrantsAreTheSame(gs: set<Grant>)
    ensures CanonicalGrants(CanonicalGrants(gs)) == CanonicalGrants(gs)
    ensures forall p :: Covered(CanonicalGrants(gs), p) <==> Covered(gs, p)
    ensures (exists g :: g in CanonicalGrants(gs) && !ValidGrant(g)) <==> (exists g :: g in gs && !ValidGrant(g))
    ensures ImpliedBy(CanonicalGrants(gs)) == ImpliedBy(gs)
  {
    hide CanonicalGrant, Covers, ValidGrant, Implied;
    forall g: Grant
      ensures CanonicalGrant(CanonicalGrant(g)) == CanonicalGrant(g)
      ensures forall p :: Covers(CanonicalGrant(g), p) <==> Covers(g, p)
      ensures ValidGrant(CanonicalGrant(g)) <==> ValidGrant(g)
      ensures Implied(CanonicalGrant(g)) == Implied(g)
    {
      CanonicalGrantIsTheSame(g);
    }
    assert forall g :: g in gs ==> CanonicalGrant(g) in CanonicalGrants(gs);
    forall p ensures Covered(CanonicalGrants(gs), p) <==> Covered(gs, p) {
      if Covered(gs, p) {
        var g :| g in gs && Covers(g, p);
        assert Covers(CanonicalGrant(g), p);
      }
    }
    forall e | e in ImpliedBy(gs) ensures e in ImpliedBy(CanonicalGrants(gs)) {
      var g :| g in gs && Implied(g) == e;
      assert Implied(CanonicalGrant(g)) == e;
    }
  }

  /** Canonicalising twice is canonicalising once, and changes neither the
      reach of a manifest nor the verdict on it. */
  lemma CanonicalisationIsHarmless(m: Manifest)
    ensures Canonicalized(Canonicalized(m)) == Canonicalized(m)
    ensures forall p :: Covered(Canonicalized(m).capabilities, p) <==> Covered(m.capabilities, p)
    ensures Validate(Canonicalized(m)) == Validate(m)
  {
    hide CanonicalGrants, ValidGrant, Implied, Top, ImpliedBy;
    CanonicalGrantsAreTheSame(m.capabilities);
  }

  /** A grant with its lists read as sets. */
  datatype Meaning =
    | FilesystemOf(paths: set<string>, mode: Mode)
    | NetworkOf(hosts: set<string>, protocols: set<string>, methods: set<string>)
    | SecretOf(handles: set<string>)
    | ToolOf(tools: set<string>)
    | ModelOf(models: set<string>)
    | ClockOf

  function MeaningOf(g: Grant): Meaning {
    match g
    case Filesystem(paths, mode) => FilesystemOf(Elements(paths), mode)
    case Network(hosts, protocols, methods) => NetworkOf(Elements(hosts), Elements(protocols), Elements(methods))
    case Secret(handles) => SecretOf(Elements(handles))
    case Tool(tools) => ToolOf(Elements(tools))
    case Model(models) => ModelOf(Elements(models))
    case Clock => ClockOf
  }

  function Meanings(gs: set<Grant>): set<Meaning> {
    set g | g in gs :: MeaningOf(g)
  }

  lemma SortedIsTheSet(a: seq<string>, b: seq<string>)
    ensures Sorted(a) == Sorted(b) <==> Elements(a) == Elements(b)
  {
    TextOrder();
    CanonicalIsTheSet(a, b, Below);
  }

  lemma SameCanonicalGrant(g: Grant, h: Grant)
    ensures CanonicalGrant(g) == CanonicalGrant(h) <==> MeaningOf(g) == MeaningOf(h)
  {
    hide Sorted, Elements;
    forall a: seq<string>, b: seq<string> ensures Sorted(a) == Sorted(b) <==> Elements(a) == Elements(b) {
      SortedIsTheSet(a, b);
    }
  }

  lemma SameCanonicalGrants(a: set<Grant>, b: set<Grant>)
    ensures CanonicalGrants(a) == CanonicalGrants(b) <==> Meanings(a) == Meanings(b)
  {
    hide CanonicalGrant, MeaningOf;
    forall g: Grant, h: Grant ensures CanonicalGrant(g) == CanonicalGrant(h) <==> MeaningOf(g) == MeaningOf(h) {
      SameCanonicalGrant(g, h);
    }
    if CanonicalGrants(a) == CanonicalGrants(b) {
      SubsetOfMeanings(a, b);
      SubsetOfMeanings(b, a);
    }
    if Meanings(a) == Meanings(b) {
      SubsetOfCanonical(a, b);
      SubsetOfCanonical(b, a);
    }
  }

  lemma SubsetOfMeanings(a: set<Grant>, b: set<Grant>)
    requires CanonicalGrants(a) <= CanonicalGrants(b)
    ensures Meanings(a) <= Meanings(b)
  {
    hide CanonicalGrant, MeaningOf;
    forall v | v in Meanings(a) ensures v in Meanings(b) {
      var g :| g in a && MeaningOf(g) == v;
      assert CanonicalGrant(g) in CanonicalGrants(b);
      var h :| h in b && CanonicalGrant(h) == CanonicalGrant(g);
      SameCanonicalGrant(g, h);
    }
  }

  lemma SubsetOfCanonical(a: set<Grant>, b: set<Grant>)
    requires Meanings(a) <= Meanings(b)
    ensures CanonicalGrants(a) <= CanonicalGrants(b)
  {
    hide CanonicalGrant, MeaningOf;
    forall c | c in CanonicalGrants(a) ensures c in CanonicalGrants(b) {
      var g :| g in a && CanonicalGrant(g) == c;
      assert MeaningOf(g) in Meanings(b);
      var h :| h in b && MeaningOf(h) == MeaningOf(g);
      SameCanonicalGrant(g, h);
    }
  }

  ghost predicate Injective<Id(!new)>(hash: Manifest -> Id) {
    forall a, b :: hash(a) == hash(b) ==> a == b
  }

  /** With a collision-free hash, manifests that agree in every other field have
      the same address exactly when their grants mean the same. */
  lemma AddressIsMeaning<Id(!new)>(a: Manifest, b: Manifest, hash: Manifest -> Id)
    requires Injective(hash) && a.(capabilities := {}) == b.(capabilities := {})
    ensures CapsuleId(a, hash) == CapsuleId(b, hash) <==> Meanings(a.capabilities) == Meanings(b.capabilities)
  {
    hide CanonicalGrants, Meanings;
    SameCanonicalGrants(a.capabilities, b.capabilities);
    assert a == a.(capabilities := {}).(capabilities := a.capabilities);
    assert b == b.(capabilities := {}).(capabilities := b.capabilities);
  }

  // ------------------------------------------------------------------
  // Budgets.
  // ------------------------------------------------------------------

  function MinBound(a: Option<nat>, b: Option<nat>): Option<nat> {
    if a.Some? && b.Some? then Some(if a.value <= b.value then a.value else b.value)
    else if a.Some? then a else b
  }

  function MinCost(a: Option<real>, b: Option<real>): Option<real> {
    if a.Some? && b.Some? then Some(if a.value <= b.value then a.value else b.value)
    else if a.Some? then a else b
  }

  function Clamp(b: Budget, ceiling: Budget): Budget {
    Budget(MinBound(b.fuel, ceiling.fuel), MinBound(b.maxMemoryBytes, ceiling.maxMemoryBytes),
           MinBound(b.wallTimeMs, ceiling.wallTimeMs), MinBound(b.maxTokens, ceiling.maxTokens),
           MinCost(b.maxCostUsd, ceiling.maxCostUsd), MinBound(b.maxOutputBytes, ceiling.maxOutputBytes))
  }

  datatype Usage = Usage(fuel: nat, memoryBytes: nat, wallTimeMs: nat, tokens: nat, costUsd: real, outputBytes: nat)

  ghost predicate Fits(u: Usage, b: Budget) {
    && (b.fuel.Some? ==> u.fuel <= b.fuel.value)
    && (b.maxMemoryBytes.Some? ==> u.memoryBytes <= b.maxMemoryBytes.value)
    && (b.wallTimeMs.Some? ==> u.wallTimeMs <= b.wallTimeMs.value)
    && (b.maxTokens.Some? ==> u.tokens <= b.maxTokens.value)
    && (b.maxCostUsd.Some? ==> u.costUsd <= b.maxCostUsd.value)
    && (b.maxOutputBytes.Some? ==> u.outputBytes <= b.maxOutputBytes.value)
  }

  /** A run fits the clamped budget exactly when it fits both. */
  lemma ClampIsMeet(b: Budget, ceiling: Budget, u: Usage)
    ensures Fits(u, Clamp(b, ceiling)) <==> Fits(u, b) && Fits(u, ceiling)
    ensures Clamp(b, ceiling) == Clamp(ceiling, b)
  {
  }
}
