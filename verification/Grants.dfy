/** Capability grants: what a grant set reaches, how an overlay narrows it, and
    the advisory signal that an overlay asks for more. */
module Grants {
  import opened Sorting
  import opened Wrappers

  datatype Mode = Read | ReadWrite {
    function Rank(): nat {
      if Read? then 0 else 1
    }

    function Min(other: Mode): Mode {
      if Rank() <= other.Rank() then this else other
    }
  }

  datatype Grant =
    | Filesystem(paths: seq<string>, mode: Mode)
    | Network(hosts: seq<string>, protocols: seq<string>, methods: seq<string>)
    | Secret(handles: seq<string>)
    | Tool(tools: seq<string>)
    | Model(models: seq<string>)
    | Clock

  /** One use of a capability. A filesystem use names a granted path item, not
      a file below it. */
  datatype Probe =
    | PathUse(path: string, mode: Mode)
    | Call(protocol: string, host: string, verb: string)
    | SecretUse(handle: string)
    | ToolUse(tool: string)
    | ModelUse(model: string)
    | ClockUse

  predicate Covers(g: Grant, p: Probe) {
    match (g, p)
    case (Filesystem(paths, mode), PathUse(path, used)) => path in paths && used.Rank() <= mode.Rank()
    case (Network(hosts, protocols, methods), Call(protocol, host, verb)) =>
      host in hosts && protocol in protocols && verb in methods
    case (Secret(handles), SecretUse(handle)) => handle in handles
    case (Tool(tools), ToolUse(tool)) => tool in tools
    case (Model(models), ModelUse(model)) => model in models
    case (Clock, ClockUse) => true
    case _ => false
  }

  /** Any single covering grant permits. */
  predicate Covered(gs: set<Grant>, p: Probe) {
    exists g :: g in gs && Covers(g, p)
  }

  // ------------------------------------------------------------------
  // Intersection.
  // ------------------------------------------------------------------

  function Shared(a: seq<string>, b: seq<string>): (s: seq<string>)
    ensures Elements(s) == Elements(a) * Elements(b)
  {
    if a == [] then []
    else
      assert Elements(a) == {a[0]} + Elements(a[1..]);
      var rest := Shared(a[1..], b);
      assert Elements([a[0]] + rest) == {a[0]} + Elements(rest);
      if a[0] in b then [a[0]] + rest else rest
  }

  /** The shared items of two scope lists, sorted and without repetitions. */
  function Common(a: seq<string>, b: seq<string>): seq<string> {
    Canonical(Shared(a, b), Below)
  }

  lemma CommonIsIntersection(a: seq<string>, b: seq<string>)
    ensures Ascending(Common(a, b), Below) && Elements(Common(a, b)) == Elements(a) * Elements(b)
    ensures forall x :: x in Common(a, b) <==> x in a && x in b
  {
    TextOrder();
    CanonicalAscends(Shared(a, b), Below);
    assert forall x :: x in Common(a, b) <==> x in Elements(Common(a, b));
  }

  lemma CommonCommutes(a: seq<string>, b: seq<string>)
    ensures Common(a, b) == Common(b, a)
  {
    TextOrder();
    CommonIsIntersection(a, b);
    CommonIsIntersection(b, a);
    AscendingIsUnique(Common(a, b), Common(b, a), Below);
  }

  lemma CommonAssociates(a: seq<string>, b: seq<string>, c: seq<string>)
    ensures Common(Common(a, b), c) == Common(a, Common(b, c))
    ensures Common(a, b) == [] || Common(b, c) == [] ==> Common(Common(a, b), c) == []
  {
    hide Common;
    TextOrder();
    CommonIsIntersection(a, b);
    CommonIsIntersection(b, c);
    CommonIsIntersection(Common(a, b), c);
    CommonIsIntersection(a, Common(b, c));
    AscendingIsUnique(Common(Common(a, b), c), Common(a, Common(b, c)), Below);
    var abc := Common(Common(a, b), c);
    assert abc != [] ==> abc[0] in Common(a, b) && abc[0] in Common(a, Common(b, c));
  }

  /** The grant two grants share; none when some scope shares nothing. */
  function Meet(g: Grant, h: Grant): Option<Grant> {
    match (g, h)
    case (Filesystem(p, m), Filesystem(q, n)) =>
      var paths := Common(p, q);
      if paths == [] then None else Some(Filesystem(paths, m.Min(n)))
    case (Network(h1, p1, m1), Network(h2, p2, m2)) =>
      var hosts, protocols, methods := Common(h1, h2), Common(p1, p2), Common(m1, m2);
      if hosts == [] || protocols == [] || methods == [] then None else Some(Network(hosts, protocols, methods))
    case (Secret(a), Secret(b)) => if Common(a, b) == [] then None else Some(Secret(Common(a, b)))
    case (Tool(a), Tool(b)) => if Common(a, b) == [] then None else Some(Tool(Common(a, b)))
    case (Model(a), Model(b)) => if Common(a, b) == [] then None else Some(Model(Common(a, b)))
    case (Clock, Clock) => Some(Clock)
    case _ => None
  }

  function Intersect(manifest: set<Grant>, overlay: set<Grant>): set<Grant> {
    set m, o | m in manifest && o in overlay && Meet(m, o).Some? :: Meet(m, o).value
  }

  method IntersectGrants(manifest: set<Grant>, overlay: set<Grant>) returns (out: set<Grant>)
    ensures out == Intersect(manifest, overlay)
  {
    hide Meet;
    out := {};
    var left := manifest;
    while left != {}
      invariant left <= manifest && out == Intersect(manifest - left, overlay)
      decreases left
    {
      var m :| m in left;
      var rest := overlay;
      while rest != {}
        invariant rest <= overlay
        invariant out == Intersect(manifest - left, overlay) + Intersect({m}, overlay - rest)
        decreases rest
      {
        var o :| o in rest;
        var shared := Meet(m, o);
        if shared.Some? {
          out := out + {shared.value};
        }
        IntersectAddRight({m}, overlay - rest, o);
        assert overlay - (rest - {o}) == overlay - rest + {o};
        assert Intersect({m}, {o}) == if shared.Some? then {shared.value} else {};
        rest := rest - {o};
      }
      assert overlay - {} == overlay;
      IntersectAddLeft(manifest - left, m, overlay);
      assert manifest - (left - {m}) == manifest - left + {m};
      left := left - {m};
    }
    assert manifest - {} == manifest;
  }

  lemma IntersectAddRight(a: set<Grant>, b: set<Grant>, o: Grant)
    ensures Intersect(a, b + {o}) == Intersect(a, b) + Intersect(a, {o})
  {
    hide Meet;
  }

  lemma IntersectAddLeft(a: set<Grant>, m: Grant, b: set<Grant>)
    ensures Intersect(a + {m}, b) == Intersect(a, b) + Intersect({m}, b)
  {
    hide Meet;
  }

  lemma MeetCovers(g: Grant, h: Grant, p: Probe)
    ensures (Meet(g, h).Some? && Covers(Meet(g, h).value, p)) <==> Covers(g, p) && Covers(h, p)
  {
    hide Common;
    match (g, h)
    case (Filesystem(a, _), Filesystem(b, _)) => CommonIsIntersection(a, b);
    case (Network(h1, p1, m1), Network(h2, p2, m2)) =>
      CommonIsIntersection(h1, h2);
      CommonIsIntersection(p1, p2);
      CommonIsIntersection(m1, m2);
    case (Secret(a), Secret(b)) => CommonIsIntersection(a, b);
    case (Tool(a), Tool(b)) => CommonIsIntersection(a, b);
    case (Model(a), Model(b)) => CommonIsIntersection(a, b);
    case _ =>
  }

  /** The effective set reaches exactly what both sides reach. */
  lemma IntersectIsExactMeet(manifest: set<Grant>, overlay: set<Grant>, p: Probe)
    ensures Covered(Intersect(manifest, overlay), p) <==> Covered(manifest, p) && Covered(overlay, p)
  {
    hide Meet, Covers;
    var both := Intersect(manifest, overlay);
    if Covered(both, p) {
      var g :| g in both && Covers(g, p);
      var m, o :| m in manifest && o in overlay && Meet(m, o).Some? && Meet(m, o).value == g;
      MeetCovers(m, o, p);
    }
    if Covered(manifest, p) && Covered(overlay, p) {
      var m :| m in manifest && Covers(m, p);
      var o :| o in overlay && Covers(o, p);
      MeetCovers(m, o, p);
      assert Meet(m, o).value in both;
    }
  }

  // ------------------------------------------------------------------
  // Any number of overlays, in any order.
  // ------------------------------------------------------------------

  lemma MeetCommutes(g: Grant, h: Grant)
    ensures Meet(g, h) == Meet(h, g)
  {
    hide Common;
    match (g, h)
    case (Filesystem(a, _), Filesystem(b, _)) => CommonCommutes(a, b);
    case (Network(h1, p1, m1), Network(h2, p2, m2)) =>
      CommonCommutes(h1, h2);
      CommonCommutes(p1, p2);
      CommonCommutes(m1, m2);
    case (Secret(a), Secret(b)) => CommonCommutes(a, b);
    case (Tool(a), Tool(b)) => CommonCommutes(a, b);
    case (Model(a), Model(b)) => CommonCommutes(a, b);
    case _ =>
  }

  lemma IntersectCommutes(a: set<Grant>, b: set<Grant>)
    ensures Intersect(a, b) == Intersect(b, a)
  {
    hide Meet;
    forall g: Grant, h: Grant ensures Meet(g, h) == Meet(h, g) {
      MeetCommutes(g, h);
    }
  }

  function MeetLeft(g: Option<Grant>, h: Grant): Option<Grant> {
    if g.None? then None else Meet(g.value, h)
  }

  function MeetRight(g: Grant, h: Option<Grant>): Option<Grant> {
    if h.None? then None else Meet(g, h.value)
  }

  lemma MeetAssociates(a: Grant, b: Grant, c: Grant)
    ensures MeetLeft(Meet(a, b), c) == MeetRight(a, Meet(b, c))
  {
    hide Common;
    match (a, b, c)
    case (Filesystem(x, _), Filesystem(y, _), Filesystem(z, _)) => CommonAssociates(x, y, z);
    case (Network(h1, p1, m1), Network(h2, p2, m2), Network(h3, p3, m3)) =>
      CommonAssociates(h1, h2, h3);
      CommonAssociates(p1, p2, p3);
      CommonAssociates(m1, m2, m3);
    case (Secret(x), Secret(y), Secret(z)) => CommonAssociates(x, y, z);
    case (Tool(x), Tool(y), Tool(z)) => CommonAssociates(x, y, z);
    case (Model(x), Model(y), Model(z)) => CommonAssociates(x, y, z);
    case _ =>
  }

  lemma IntersectAssociates(a: set<Grant>, b: set<Grant>, c: set<Grant>)
    ensures Intersect(Intersect(a, b), c) == Intersect(a, Intersect(b, c))
  {
    hide Meet;
    var left, right := Intersect(Intersect(a, b), c), Intersect(a, Intersect(b, c));
    forall g | g in left ensures g in right {
      var ab, z :| ab in Intersect(a, b) && z in c && Meet(ab, z).Some? && Meet(ab, z).value == g;
      var x, y :| x in a && y in b && Meet(x, y).Some? && Meet(x, y).value == ab;
      MeetAssociates(x, y, z);
      assert Meet(y, z).value in Intersect(b, c);
    }
    forall g | g in right ensures g in left {
      var x, bc :| x in a && bc in Intersect(b, c) && Meet(x, bc).Some? && Meet(x, bc).value == g;
      var y, z :| y in b && z in c && Meet(y, z).Some? && Meet(y, z).value == bc;
      MeetAssociates(x, y, z);
      assert Meet(x, y).value in Intersect(a, b);
    }
  }

  /** The effective grants under a list of overlays, applied one by one. */
  function Effective(manifest: set<Grant>, overlays: seq<set<Grant>>): set<Grant> {
    if overlays == [] then manifest
    else Intersect(Effective(manifest, overlays[..|overlays| - 1]), overlays[|overlays| - 1])
  }

  lemma EffectiveOfLast(manifest: set<Grant>, overlays: seq<set<Grant>>, o: set<Grant>)
    ensures Effective(manifest, overlays + [o]) == Intersect(Effective(manifest, overlays), o)
  {
    assert (overlays + [o])[..|overlays|] == overlays;
  }

  lemma LastTwoSwap(e: set<Grant>, a: set<Grant>, b: set<Grant>)
    ensures Intersect(Intersect(e, a), b) == Intersect(Intersect(e, b), a)
  {
    hide Intersect;
    IntersectAssociates(e, a, b);
    IntersectCommutes(a, b);
    IntersectAssociates(e, b, a);
  }

  lemma {:induction false} EffectiveOfInsertion(manifest: set<Grant>, before: seq<set<Grant>>, o: set<Grant>,
                                                after: seq<set<Grant>>)
    ensures Effective(manifest, before + [o] + after) == Intersect(Effective(manifest, before + after), o)
    decreases |after|
  {
    hide Intersect, Effective;
    if after == [] {
      assert before + [o] + after == before + [o] && before + after == before;
      EffectiveOfLast(manifest, before, o);
    } else {
      var init, last := after[..|after| - 1], after[|after| - 1];
      EffectiveOfInsertion(manifest, before, o, init);
      assert before + [o] + after == before + [o] + init + [last] && before + after == before + init + [last];
      EffectiveOfLast(manifest, before + [o] + init, last);
      EffectiveOfLast(manifest, before + init, last);
      LastTwoSwap(Effective(manifest, before + init), o, last);
    }
  }

  /** The order in which overlays are applied does not matter. */
  lemma {:induction false} OverlayOrderIsIrrelevant(manifest: set<Grant>, a: seq<set<Grant>>, b: seq<set<Grant>>)
    requires multiset(a) == multiset(b)
    ensures Effective(manifest, a) == Effective(manifest, b)
    decreases |a|
  {
    hide Intersect, Effective;
    if a == [] {
      assert |multiset(b)| == 0;
    } else {
      var init, o := a[..|a| - 1], a[|a| - 1];
      assert a == init + [o];
      EffectiveOfLast(manifest, init, o);
      assert o in multiset(b);
      var k :| 0 <= k < |b| && b[k] == o;
      assert b == b[..k] + [o] + b[k + 1..];
      EffectiveOfInsertion(manifest, b[..k], o, b[k + 1..]);
      assert multiset(b[..k] + b[k + 1..]) == multiset(b) - multiset{o};
      OverlayOrderIsIrrelevant(manifest, init, b[..k] + b[k + 1..]);
    }
  }

  /** What any list of overlays leaves is what the manifest and every overlay
      reach. */
  lemma {:induction false} EffectiveIsExactMeet(manifest: set<Grant>, overlays: seq<set<Grant>>, p: Probe)
    ensures Covered(Effective(manifest, overlays), p)
        <==> Covered(manifest, p) && forall i :: 0 <= i < |overlays| ==> Covered(overlays[i], p)
    decreases |overlays|
  {
    hide Covered, Intersect;
    if overlays != [] {
      var init := overlays[..|overlays| - 1];
      EffectiveIsExactMeet(manifest, init, p);
      IntersectIsExactMeet(Effective(manifest, init), overlays[|overlays| - 1], p);
      assert forall i :: 0 <= i < |init| ==> init[i] == overlays[i];
    }
  }

  /** Meeting a set with itself changes no reach, though it may change the set:
      lists are sorted, and grants of one kind also meet each other. */
  lemma SelfMeetReachesTheSame(gs: set<Grant>, p: Probe)
    ensures Covered(Intersect(gs, gs), p) <==> Covered(gs, p)
  {
    IntersectIsExactMeet(gs, gs, p);
  }

  /** Every scope list is non-empty, sorted and free of repetitions. */
  ghost predicate Tidy(g: Grant) {
    match g
    case Filesystem(paths, _) => TidyList(paths)
    case Network(hosts, protocols, methods) => TidyList(hosts) && TidyList(protocols) && TidyList(methods)
    case Secret(handles) => TidyList(handles)
    case Tool(tools) => TidyList(tools)
    case Model(models) => TidyList(models)
    case Clock => true
  }

  ghost predicate TidyList(s: seq<string>) {
    s != [] && Ascending(s, Below)
  }

  lemma CommonWithSelf(a: seq<string>)
    requires Ascending(a, Below)
    ensures Common(a, a) == a
  {
    TextOrder();
    CommonIsIntersection(a, a);
    AscendingIsUnique(Common(a, a), a, Below);
  }

  lemma MeetIsTidy(g: Grant, h: Grant)
    ensures Meet(g, h).Some? ==> Tidy(Meet(g, h).value)
    ensures Tidy(g) ==> Meet(g, g) == Some(g)
  {
    hide Common, Ascending;
    forall a: seq<string>, b: seq<string> ensures Ascending(Common(a, b), Below) {
      CommonIsIntersection(a, b);
    }
    forall a: seq<string> | Ascending(a, Below) ensures Common(a, a) == a {
      CommonWithSelf(a);
    }
  }

  /** A set meets itself unchanged exactly when its lists are tidy and it
      already holds what its own grants share. */
  lemma SelfMeetIsIdentity(gs: set<Grant>)
    ensures Intersect(gs, gs) == gs
       <==> (forall g :: g in gs ==> Tidy(g)) && (forall g, h :: g in gs && h in gs && Meet(g, h).Some? ==> Meet(g, h).value in gs)
  {
    hide Meet, Tidy;
    forall g: Grant, h: Grant
      ensures Meet(g, h).Some? ==> Tidy(Meet(g, h).value)
      ensures Tidy(g) ==> Meet(g, g) == Some(g)
    {
      MeetIsTidy(g, h);
    }
  }
}
