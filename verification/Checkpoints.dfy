/**
 Delta checkpoints: a thread's snapshots stored as chains of channel-level
 differences, and the store of full snapshots those chains must stand for.
 */
module Checkpoints {
  import opened Wrappers
  import Json

  type Id = string
  type State = map<string, Json.Value>

  datatype Checkpoint = Checkpoint(
    id: Id,
    threadId: string,
    step: nat,
    state: State,
    nextNodes: seq<string>,
    createdAt: int,
    header: Json.Value,
    journalRef: Option<string>,
    base: Option<Id>)

  datatype DeltaPolicy = DeltaPolicy(maxChainLen: nat, maxByteRatio: real)

  datatype DeltaHead = DeltaHead(checkpoint: Checkpoint, chainLen: nat)

  datatype DeltaEncoding = DeltaEncoding(checkpoint: Checkpoint, chainLen: nat)

  datatype Failure =
    | EmptyChain
    | RootIsDelta
    | BrokenLink
    | Cycle
    | PointerFailed
    | TooLong
    | MissingFile
    | DuplicateId

  // ------------------------------------------------------------------
  // Encoding one put, folding one link.
  // ------------------------------------------------------------------

  function ChangedSince(state: State, base: State): State {
    map k | k in state && !(k in base && base[k] == state[k]) :: state[k]
  }

  function FullEncoding(c: Checkpoint): DeltaEncoding {
    DeltaEncoding(c.(base := None), 0)
  }

  /** `size` is the serialized length of a state. */
  function EncodeDelta(c: Checkpoint, head: Option<DeltaHead>, policy: DeltaPolicy, size: State -> nat): DeltaEncoding {
    if head.None? || policy.maxChainLen == 0 then FullEncoding(c)
    else if head.value.chainLen >= policy.maxChainLen then FullEncoding(c)
    else
      var delta := ChangedSince(c.state, head.value.checkpoint.state);
      if size(delta) as real >= policy.maxByteRatio * size(c.state) as real then FullEncoding(c)
      else DeltaEncoding(c.(base := Some(head.value.checkpoint.id), state := delta), head.value.chainLen + 1)
  }

  /** The changed channels are small enough a part of the whole, and the chain can
      take one more. */
  ghost predicate Worthwhile(c: Checkpoint, head: DeltaHead, changed: State, policy: DeltaPolicy, size: State -> nat) {
    head.chainLen < policy.maxChainLen && (size(changed) as real) < policy.maxByteRatio * size(c.state) as real
  }

  /** What a put is stored as: a link to its head, with exactly the channels that are
      new or differ, when there is a head and that is worthwhile; else the whole. */
  ghost predicate StoredAs(c: Checkpoint, head: Option<DeltaHead>, policy: DeltaPolicy, size: State -> nat, stored: Checkpoint) {
    if head.None? then stored == c.(base := None)
    else
      exists changed: State ::
        && (forall k :: k in changed <==>
              k in c.state && (k !in head.value.checkpoint.state || head.value.checkpoint.state[k] != c.state[k]))
        && (forall k :: k in changed ==> k in c.state && changed[k] == c.state[k])
        && stored == if Worthwhile(c, head.value, changed, policy, size)
                     then c.(state := changed, base := Some(head.value.checkpoint.id))
                     else c.(base := None)
  }

  lemma EncodesExactly(c: Checkpoint, head: Option<DeltaHead>, policy: DeltaPolicy, size: State -> nat)
    ensures var e := EncodeDelta(c, head, policy, size);
      && StoredAs(c, head, policy, size, e.checkpoint)
      && e.chainLen == if e.checkpoint.base.None? then 0 else head.value.chainLen + 1
  {
    if head.Some? {
      var changed := ChangedSince(c.state, head.value.checkpoint.state);
      assert EncodeDelta(c, head, policy, size).checkpoint == if Worthwhile(c, head.value, changed, policy, size)
        then c.(state := changed, base := Some(head.value.checkpoint.id)) else c.(base := None);
    }
  }

  function FoldDelta(base: Checkpoint, delta: Checkpoint): Checkpoint {
    delta.(state := base.state + delta.state, base := None)
  }

  ghost predicate SubState(a: State, b: State) {
    forall k :: k in a ==> k in b && b[k] == a[k]
  }

  /** What folding restores when the link was cut against a head whose channels
      all survive in the fold base: never a wrong or missing channel, and
      exactly the base's other channels on top. */
  lemma FoldRestores(c: Checkpoint, head: State, base: Checkpoint)
    requires SubState(head, base.state)
    ensures var folded := FoldDelta(base, c.(state := ChangedSince(c.state, head)));
      && SubState(c.state, folded.state)
      && folded.state.Keys == base.state.Keys + c.state.Keys
      && folded == c.(state := folded.state, base := None)
      && (folded.state == c.state <==> base.state.Keys <= c.state.Keys)
  {
    var folded := FoldDelta(base, c.(state := ChangedSince(c.state, head)));
    forall k | k in c.state ensures k in folded.state && folded.state[k] == c.state[k] {
      if k !in ChangedSince(c.state, head) {
        assert k in head && head[k] == c.state[k];
      }
    }
    assert folded.state.Keys == base.state.Keys + c.state.Keys;
    if base.state.Keys <= c.state.Keys {
      assert folded.state.Keys == c.state.Keys;
      assert folded.state == c.state;
    }
  }

  // ------------------------------------------------------------------
  // Chains.
  // ------------------------------------------------------------------

  type Files = map<Id, Checkpoint>

  ghost predicate FilesNamed(files: Files) {
    forall id :: id in files ==> files[id].id == id
  }

  /** A chain, root first: a full snapshot, then links that each name the link
      before as their base. */
  ghost predicate Linked(chain: seq<Checkpoint>) {
    && |chain| > 0
    && chain[0].base == None
    && forall i :: 0 < i < |chain| ==> chain[i].base == Some(chain[i - 1].id)
  }

  ghost predicate Stored(files: Files, chain: seq<Checkpoint>) {
    forall i :: 0 <= i < |chain| ==> chain[i].id in files && files[chain[i].id] == chain[i]
  }

  ghost predicate IsChainTo(files: Files, chain: seq<Checkpoint>, id: Id) {
    Linked(chain) && Stored(files, chain) && chain[|chain| - 1].id == id
  }

  ghost predicate Resolves(files: Files, id: Id) {
    exists chain :: IsChainTo(files, chain, id)
  }

  ghost function ChainTo(files: Files, id: Id): (chain: seq<Checkpoint>)
    requires Resolves(files, id)
    ensures IsChainTo(files, chain, id)
  {
    var chain :| IsChainTo(files, chain, id);
    chain
  }

  /** The full snapshot a stored checkpoint stands for. */
  ghost function Materialized(files: Files, id: Id): Checkpoint
    requires Resolves(files, id)
  {
    FoldChain(ChainTo(files, id))
  }

  function FoldChain(chain: seq<Checkpoint>): Checkpoint
    requires |chain| > 0
  {
    if |chain| == 1 then chain[0]
    else FoldDelta(FoldChain(chain[..|chain| - 1]), chain[|chain| - 1])
  }

  lemma {:induction false} ChainIsUnique(files: Files, a: seq<Checkpoint>, b: seq<Checkpoint>, id: Id)
    requires IsChainTo(files, a, id) && IsChainTo(files, b, id)
    ensures a == b
    decreases |a|
  {
    var m, n := |a| - 1, |b| - 1;
    assert a[m] == b[n];
    assert m > 0 ==> a[m].base == Some(a[m - 1].id);
    assert n > 0 ==> b[n].base == Some(b[n - 1].id);
    if m > 0 {
      ChainIsUnique(files, a[..m], b[..n], a[m - 1].id);
      assert a == a[..m] + [a[m]] && b == b[..n] + [b[n]];
    }
  }

  lemma ChainIdsAreDistinct(files: Files, chain: seq<Checkpoint>, i: nat, j: nat)
    requires Linked(chain) && Stored(files, chain) && i < j < |chain|
    ensures chain[i].id != chain[j].id
  {
    if chain[i].id == chain[j].id {
      ChainIsUnique(files, chain[..i + 1], chain[..j + 1], chain[i].id);
    }
  }

  lemma MaterializedByChain(files: Files, chain: seq<Checkpoint>, id: Id)
    requires IsChainTo(files, chain, id)
    ensures Resolves(files, id) && Materialized(files, id) == FoldChain(chain)
  {
    ChainIsUnique(files, chain, ChainTo(files, id), id);
  }

  lemma MaterializedFull(files: Files, c: Checkpoint)
    requires c.id in files && files[c.id] == c && c.base == None
    ensures Resolves(files, c.id) && Materialized(files, c.id) == c
  {
    MaterializedByChain(files, [c], c.id);
  }

  /** A link resolves exactly when its base does, and stands for its base with
      its own channels laid over. */
  lemma MaterializedLink(files: Files, c: Checkpoint)
    requires c.id in files && files[c.id] == c && c.base.Some?
    ensures Resolves(files, c.id) <==> Resolves(files, c.base.value)
    ensures Resolves(files, c.id) ==>
              && Materialized(files, c.id) == FoldDelta(Materialized(files, c.base.value), c)
              && |ChainTo(files, c.id)| == |ChainTo(files, c.base.value)| + 1
  {
    if Resolves(files, c.id) {
      var chain := ChainTo(files, c.id);
      var n := |chain| - 1;
      assert chain[n] == c;
      assert IsChainTo(files, chain[..n], c.base.value);
      MaterializedByChain(files, chain[..n], c.base.value);
      ChainIsUnique(files, chain[..n], ChainTo(files, c.base.value), c.base.value);
    } else if Resolves(files, c.base.value) {
      var chain := ChainTo(files, c.base.value) + [c];
      assert IsChainTo(files, chain, c.id);
    }
  }

  /** Adding a file under a fresh id changes no chain that already resolved. */
  lemma ChainsSurvive(files: Files, c: Checkpoint, id: Id)
    requires c.id !in files && Resolves(files, id)
    ensures Resolves(files[c.id := c], id)
    ensures ChainTo(files[c.id := c], id) == ChainTo(files, id)
  {
    var chain := ChainTo(files, id);
    assert IsChainTo(files[c.id := c], chain, id);
    ChainIsUnique(files[c.id := c], chain, ChainTo(files[c.id := c], id), id);
  }

  // ------------------------------------------------------------------
  // The read paths' loops.
  // ------------------------------------------------------------------

  method FoldStoredChain(chain: seq<Checkpoint>) returns (r: Result<Checkpoint, Failure>)
    ensures r.Ok? <==> Linked(chain)
    ensures r.Ok? ==> r.value == FoldChain(chain)
    ensures chain == [] <==> r == Err(EmptyChain)
    ensures chain != [] && chain[0].base.Some? <==> r == Err(RootIsDelta)
    ensures chain != [] && chain[0].base.None? && !Linked(chain) <==> r == Err(BrokenLink)
  {
    if chain == [] {
      return Err(EmptyChain);
    }
    if chain[0].base.Some? {
      return Err(RootIsDelta);
    }
    var tip := chain[0];
    for i := 1 to |chain|
      invariant Linked(chain[..i])
      invariant tip == FoldChain(chain[..i]) && tip.id == chain[i - 1].id
    {
      if chain[i].base != Some(tip.id) {
        return Err(BrokenLink);
      }
      tip := FoldDelta(tip, chain[i]);
      assert chain[..i + 1][..i] == chain[..i];
    }
    assert chain[..|chain|] == chain;
    return Ok(tip);
  }

  function FoldBound(policy: DeltaPolicy): nat {
    if policy.maxChainLen * 4 > 128 then policy.maxChainLen * 4 else 128
  }

  /** A walk from a tip toward its root, tip first. */
  ghost predicate IsWalk(files: Files, walk: seq<Checkpoint>) {
    && Stored(files, walk)
    && forall i :: 0 <= i < |walk| - 1 ==> walk[i].base == Some(walk[i + 1].id)
  }

  function Reversed(walk: seq<Checkpoint>): (r: seq<Checkpoint>)
    ensures |r| == |walk|
    ensures forall i :: 0 <= i < |walk| ==> r[i] == walk[|walk| - 1 - i]
  {
    seq(|walk|, i requires 0 <= i < |walk| => walk[|walk| - 1 - i])
  }

  lemma {:induction false} WalkFollowsChain(files: Files, walk: seq<Checkpoint>, chain: seq<Checkpoint>, i: nat)
    requires IsWalk(files, walk) && i < |walk|
    requires IsChainTo(files, chain, walk[0].id)
    ensures i < |chain| && chain[|chain| - 1 - i] == walk[i]
  {
    if i > 0 {
      WalkFollowsChain(files, walk, chain, i - 1);
      assert walk[i - 1].base == Some(walk[i].id);
      assert chain[|chain| - 1 - i].id in files;
    }
  }

  method LoadChain(files: Files, tip: Checkpoint, policy: DeltaPolicy) returns (r: Result<seq<Checkpoint>, Failure>)
    requires FilesNamed(files) && tip.id in files && files[tip.id] == tip
    ensures r.Ok? ==> IsChainTo(files, r.value, tip.id)
    ensures r.Ok? <==>
              && Resolves(files, tip.id)
              && (|ChainTo(files, tip.id)| <= 129 || |ChainTo(files, tip.id)| <= 4 * policy.maxChainLen + 1)
    ensures r.Err? && Resolves(files, tip.id) ==> r.error == TooLong
  {
    var walk := [tip];
    var visited: set<Id> := {};
    while walk[|walk| - 1].base.Some?
      invariant |walk| > 0 && walk[0] == tip && IsWalk(files, walk)
      invariant |walk| <= FoldBound(policy) + 1
      invariant forall id :: id in visited ==> exists i :: 0 < i < |walk| && walk[i].id == id
      decreases FoldBound(policy) + 1 - |walk|
    {
      var baseId := walk[|walk| - 1].base.value;
      ghost var n := |walk|;
      if Resolves(files, tip.id) {
        ghost var chain := ChainTo(files, tip.id);
        WalkFollowsChain(files, walk, chain, n - 1);
        assert |chain| > n && chain[|chain| - 1 - n].id == baseId;
        if baseId in visited {
          var i :| 0 < i < n && walk[i].id == baseId;
          WalkFollowsChain(files, walk, chain, i);
          ChainIdsAreDistinct(files, chain, |chain| - 1 - n, |chain| - 1 - i);
        }
      }
      if baseId in visited {
        return Err(Cycle);
      }
      visited := visited + {baseId};
      if |walk| > FoldBound(policy) {
        return Err(TooLong);
      }
      if baseId !in files {
        return Err(MissingFile);
      }
      ghost var before := walk;
      walk := walk + [files[baseId]];
      forall id | id in visited ensures exists i :: 0 < i < |walk| && walk[i].id == id {
        if id == baseId {
          assert walk[n].id == id;
        } else {
          var i :| 0 < i < n && before[i].id == id;
          assert walk[i].id == id;
        }
      }
    }
    r := Ok(Reversed(walk));
    assert IsChainTo(files, r.value, tip.id);
    MaterializedByChain(files, r.value, tip.id);
    ChainIsUnique(files, r.value, ChainTo(files, tip.id), tip.id);
  }

  // ------------------------------------------------------------------
  // Materializing a whole thread, memoized.
  // ------------------------------------------------------------------

  ghost predicate MemoSound(files: Files, memo: Files) {
    forall id :: id in memo ==> Resolves(files, id) && memo[id] == Materialized(files, id)
  }

  /** The snapshots of the resolvable ids, in the order the ids are visited. */
  ghost function MaterializedInOrder(files: Files, order: seq<Id>): seq<Checkpoint> {
    if order == [] then []
    else
      var n := |order| - 1;
      MaterializedInOrder(files, order[..n])
        + (if Resolves(files, order[n]) then [Materialized(files, order[n])] else [])
  }

  lemma WalkWithRepeatDoesNotResolve(files: Files, walk: seq<Checkpoint>, i: nat, j: nat)
    requires IsWalk(files, walk) && i < j < |walk| && walk[i].id == walk[j].id
    ensures !Resolves(files, walk[0].id)
  {
    if Resolves(files, walk[0].id) {
      var chain := ChainTo(files, walk[0].id);
      WalkFollowsChain(files, walk, chain, i);
      WalkFollowsChain(files, walk, chain, j);
      ChainIdsAreDistinct(files, chain, |chain| - 1 - j, |chain| - 1 - i);
    }
  }

  /** One start of the walk: up the bases to a full root or a memoized link,
      then back down, memoizing every link passed. */
  method MaterializeOne(files: Files, start: Id, memo: Files) returns (r: Option<Checkpoint>, memo': Files)
    requires FilesNamed(files) && start in files && MemoSound(files, memo)
    ensures r.Some? <==> Resolves(files, start)
    ensures r.Some? ==> r.value == Materialized(files, start)
    ensures MemoSound(files, memo')
  {
    memo' := memo;
    if start in memo {
      return Some(memo[start]), memo';
    }
    var links: seq<Checkpoint> := [];
    var visiting: set<Id> := {};
    var current := files[start];
    while current.id !in memo && current.base.Some?
      invariant current.id in files && files[current.id] == current
      invariant IsWalk(files, links + [current]) && (links + [current])[0].id == start
      invariant visiting <= files.Keys
      invariant forall id :: id in visiting ==> exists i :: 0 <= i < |links| && links[i].id == id
      invariant Resolves(files, start) <==> Resolves(files, current.id)
      decreases files.Keys - visiting
    {
      if current.id in visiting {
        ghost var i :| 0 <= i < |links| && links[i].id == current.id;
        WalkWithRepeatDoesNotResolve(files, links + [current], i, |links|);
        return None, memo';
      }
      MaterializedLink(files, current);
      visiting := visiting + {current.id};
      ghost var before := links;
      links := links + [current];
      forall id | id in visiting ensures exists i :: 0 <= i < |links| && links[i].id == id {
        if id == current.id {
          assert links[|links| - 1].id == id;
        } else {
          var i :| 0 <= i < |before| && before[i].id == id;
          assert links[i].id == id;
        }
      }
      if current.base.value !in files {
        assert !Resolves(files, current.base.value);
        return None, memo';
      }
      current := files[current.base.value];
    }
    var tip: Checkpoint;
    if current.id in memo {
      tip := memo[current.id];
    } else {
      MaterializedFull(files, current);
      tip := current;
    }
    ghost var walk := links + [current];
    for k := |links| downto 0
      invariant Resolves(files, walk[k].id) && tip == Materialized(files, walk[k].id)
      invariant MemoSound(files, memo')
    {
      assert walk[k] == links[k] && walk[k].base == Some(walk[k + 1].id);
      MaterializedLink(files, links[k]);
      tip := FoldDelta(tip, links[k]);
      memo' := memo'[links[k].id := tip];
    }
    return Some(tip), memo';
  }

  /** Every checkpoint whose chain is whole comes back folded, and no other:
      sharing folded links between overlapping chains changes no answer. */
  method MaterializeAll(files: Files, order: seq<Id>) returns (out: seq<Checkpoint>)
    requires FilesNamed(files)
    requires forall id :: id in order ==> id in files
    ensures out == MaterializedInOrder(files, order)
  {
    out := [];
    var memo: Files := map[];
    for i := 0 to |order|
      invariant MemoSound(files, memo)
      invariant out == MaterializedInOrder(files, order[..i])
    {
      var r;
      r, memo := MaterializeOne(files, order[i], memo);
      if r.Some? {
        out := out + [r.value];
      }
      assert order[..i + 1][..i] == order[..i];
    }
    assert order[..|order|] == order;
  }
}
