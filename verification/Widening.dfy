/** The signal that an overlay asks for reach its manifest does not declare. */
module Widening {
  import opened Grants

  predicate PathOffered(gs: set<Grant>, path: string) {
    exists g :: g in gs && g.Filesystem? && path in g.paths
  }

  predicate ModeOffered(gs: set<Grant>, mode: Mode) {
    exists g :: g in gs && g.Filesystem? && mode.Rank() <= g.mode.Rank()
  }

  predicate HostOffered(gs: set<Grant>, host: string) {
    exists g :: g in gs && g.Network? && host in g.hosts
  }

  predicate ProtocolOffered(gs: set<Grant>, protocol: string) {
    exists g :: g in gs && g.Network? && protocol in g.protocols
  }

  predicate VerbOffered(gs: set<Grant>, verb: string) {
    exists g :: g in gs && g.Network? && verb in g.methods
  }

  /** Each scope item on its own appears in some grant of the kind. */
  predicate Offered(o: Grant, gs: set<Grant>) {
    match o
    case Filesystem(paths, mode) => ModeOffered(gs, mode) && forall x :: x in paths ==> PathOffered(gs, x)
    case Network(hosts, protocols, methods) =>
      && (forall x :: x in hosts ==> HostOffered(gs, x))
      && (forall x :: x in protocols ==> ProtocolOffered(gs, x))
      && (forall x :: x in methods ==> VerbOffered(gs, x))
    case Secret(handles) => forall x :: x in handles ==> exists g :: g in gs && g.Secret? && x in g.handles
    case Tool(tools) => forall x :: x in tools ==> exists g :: g in gs && g.Tool? && x in g.tools
    case Model(models) => forall x :: x in models ==> exists g :: g in gs && g.Model? && x in g.models
    case Clock => Clock in gs
  }

  function Beyond(overlay: set<Grant>, manifest: set<Grant>): set<Grant> {
    set o | o in overlay && !Offered(o, manifest)
  }

  // ------------------------------------------------------------------
  // Narrowing.
  // ------------------------------------------------------------------

  /** `g` is `m` with some scope items left out, and no wider a mode. */
  ghost predicate Within(g: Grant, m: Grant) {
    match (g, m)
    case (Filesystem(p, a), Filesystem(q, b)) => Sublist(p, q) && a.Rank() <= b.Rank()
    case (Network(h1, p1, m1), Network(h2, p2, m2)) => Sublist(h1, h2) && Sublist(p1, p2) && Sublist(m1, m2)
    case (Secret(a), Secret(b)) => Sublist(a, b)
    case (Tool(a), Tool(b)) => Sublist(a, b)
    case (Model(a), Model(b)) => Sublist(a, b)
    case (Clock, Clock) => true
    case _ => false
  }

  ghost predicate Sublist(a: seq<string>, b: seq<string>) {
    forall x :: x in a ==> x in b
  }

  ghost predicate NonEmptyScopes(g: Grant) {
    match g
    case Filesystem(paths, _) => paths != []
    case Network(hosts, protocols, methods) => hosts != [] && protocols != [] && methods != []
    case Secret(handles) => handles != []
    case Tool(tools) => tools != []
    case Model(models) => models != []
    case Clock => true
  }

  lemma MeetIsWithin(g: Grant, h: Grant)
    ensures var m := Meet(g, h); m.Some? ==> Within(m.value, g) && Within(m.value, h) && NonEmptyScopes(m.value)
  {
    hide Common;
    forall a: seq<string>, b: seq<string> ensures Sublist(Common(a, b), a) && Sublist(Common(a, b), b) {
      CommonIsIntersection(a, b);
    }
  }

  /** Every effective grant narrows one grant of the manifest. */
  lemma {:induction false} EffectiveNarrows(manifest: set<Grant>, overlays: seq<set<Grant>>, g: Grant) returns (m: Grant)
    requires g in Effective(manifest, overlays)
    ensures m in manifest && Within(g, m) && (g == m || NonEmptyScopes(g))
    decreases |overlays|
  {
    hide Meet;
    if overlays == [] {
      m := g;
    } else {
      var inner := Effective(manifest, overlays[..|overlays| - 1]);
      var e, o :| e in inner && o in overlays[|overlays| - 1] && Meet(e, o).Some? && Meet(e, o).value == g;
      MeetIsWithin(e, o);
      m := EffectiveNarrows(manifest, overlays[..|overlays| - 1], e);
    }
  }

  lemma WithinIsOffered(g: Grant, m: Grant, gs: set<Grant>)
    requires m in gs && Within(g, m)
    ensures Offered(g, gs)
  {
  }

  lemma NarrowingIsNeverBeyond(manifest: set<Grant>, overlays: seq<set<Grant>>)
    ensures Beyond(Effective(manifest, overlays), manifest) == {}
  {
    hide Offered, Within, Effective;
    forall g | g in Effective(manifest, overlays) ensures Offered(g, manifest) {
      var m := EffectiveNarrows(manifest, overlays, g);
      WithinIsOffered(g, m, manifest);
    }
  }

  // ------------------------------------------------------------------
  // What the signal means.
  // ------------------------------------------------------------------

  /** A flagged grant really does reach something new. */
  lemma FlaggedReachesMore(overlay: set<Grant>, manifest: set<Grant>, o: Grant) returns (p: Probe)
    requires o in Beyond(overlay, manifest) && NonEmptyScopes(o)
    ensures Covers(o, p) && !Covered(manifest, p)
  {
    match o
    case Filesystem(paths, mode) =>
      if ModeOffered(manifest, mode) {
        var x :| x in paths && !PathOffered(manifest, x);
        p := PathUse(x, mode);
      } else {
        p := PathUse(paths[0], mode);
      }
    case Network(hosts, protocols, methods) =>
      if host :| host in hosts && !HostOffered(manifest, host) {
        p := Call(protocols[0], host, methods[0]);
      } else if protocol :| protocol in protocols && !ProtocolOffered(manifest, protocol) {
        p := Call(protocol, hosts[0], methods[0]);
      } else {
        var verb :| verb in methods && !VerbOffered(manifest, verb);
        p := Call(protocols[0], hosts[0], verb);
      }
    case Secret(handles) =>
      var x :| x in handles && !exists g :: g in manifest && g.Secret? && x in g.handles;
      p := SecretUse(x);
    case Tool(tools) =>
      var x :| x in tools && !exists g :: g in manifest && g.Tool? && x in g.tools;
      p := ToolUse(x);
    case Model(models) =>
      var x :| x in models && !exists g :: g in manifest && g.Model? && x in g.models;
      p := ModelUse(x);
    case Clock =>
      p := ClockUse;
  }

  /** The signal is silent only about what the manifest reaches. */
  ghost predicate SilenceMeansCovered(manifest: set<Grant>) {
    forall o, p :: NonEmptyScopes(o) && Offered(o, manifest) && Covers(o, p) ==> Covered(manifest, p)
  }

  /** Paths of one filesystem grant are granted in the mode of every other, and
      hosts, protocols and methods of different network grants are granted
      together. */
  ghost predicate Combines(manifest: set<Grant>) {
    && (forall f, g, path :: f in manifest && g in manifest && f.Filesystem? && g.Filesystem? && path in f.paths ==>
          Covered(manifest, PathUse(path, g.mode)))
    && (forall f, g, h, host, protocol, verb ::
          f in manifest && g in manifest && h in manifest && f.Network? && g.Network? && h.Network?
          && host in f.hosts && protocol in g.protocols && verb in h.methods ==>
            Covered(manifest, Call(protocol, host, verb)))
  }

  lemma OfferedIsCovered(manifest: set<Grant>, o: Grant, p: Probe)
    requires Combines(manifest) && Offered(o, manifest) && Covers(o, p)
    ensures Covered(manifest, p)
  {
    match (o, p)
    case (Filesystem(paths, mode), PathUse(path, used)) =>
      var g :| g in manifest && g.Filesystem? && mode.Rank() <= g.mode.Rank();
      assert PathOffered(manifest, path);
      assert Covered(manifest, PathUse(path, g.mode));
    case (Network(hosts, protocols, methods), Call(protocol, host, verb)) =>
      assert HostOffered(manifest, host) && ProtocolOffered(manifest, protocol) && VerbOffered(manifest, verb);
    case (Secret(_), SecretUse(x)) =>
    case (Tool(_), ToolUse(x)) =>
    case (Model(_), ModelUse(x)) =>
    case (Clock, ClockUse) =>
      assert Covers(Clock, p);
  }

  /** Silence can be trusted exactly when the manifest combines its grants. */
  lemma SilenceIsExact(manifest: set<Grant>)
    ensures SilenceMeansCovered(manifest) <==> Combines(manifest)
  {
    if SilenceMeansCovered(manifest) {
      forall f, g, path | f in manifest && g in manifest && f.Filesystem? && g.Filesystem? && path in f.paths
        ensures Covered(manifest, PathUse(path, g.mode))
      {
        var o := Filesystem([path], g.mode);
        assert PathOffered(manifest, path) && ModeOffered(manifest, g.mode);
        assert Offered(o, manifest) && Covers(o, PathUse(path, g.mode));
      }
      forall f, g, h, host, protocol, verb | f in manifest && g in manifest && h in manifest
        && f.Network? && g.Network? && h.Network? && host in f.hosts && protocol in g.protocols && verb in h.methods
        ensures Covered(manifest, Call(protocol, host, verb))
      {
        var o := Network([host], [protocol], [verb]);
        assert HostOffered(manifest, host) && ProtocolOffered(manifest, protocol) && VerbOffered(manifest, verb);
        assert Offered(o, manifest) && Covers(o, Call(protocol, host, verb));
      }
    }
    if Combines(manifest) {
      forall o, p | Offered(o, manifest) && Covers(o, p) ensures Covered(manifest, p) {
        OfferedIsCovered(manifest, o, p);
      }
    }
  }

  /** Two calls granted separately let a mixed third pass unflagged. */
  lemma MixedCallIsNotFlagged()
    ensures var manifest := {Network(["a"], ["https"], ["GET"]), Network(["b"], ["https"], ["POST"])};
      var o := Network(["a"], ["https"], ["POST"]);
      Beyond({o}, manifest) == {} && Covers(o, Call("https", "a", "POST")) && !Covered(manifest, Call("https", "a", "POST"))
  {
    var first, second := Network(["a"], ["https"], ["GET"]), Network(["b"], ["https"], ["POST"]);
    var manifest := {first, second};
    assert "a" in first.hosts && "https" in first.protocols && "POST" in second.methods;
    assert HostOffered(manifest, "a") && ProtocolOffered(manifest, "https") && VerbOffered(manifest, "POST");
    assert "GET"[0] != "POST"[0] && "a"[0] != "b"[0];
  }
}
