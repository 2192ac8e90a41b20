/**
 One thread's checkpoint directory: a file per checkpoint, a latest pointer and
 the head cache, proved against the store that keeps every put in full.
 */
module CheckpointStore {
  import opened Wrappers
  import opened Checkpoints
  import opened Sorting
  import Json

  /** Every channel any of the puts ever carried. */
  ghost function Channels(puts: seq<Checkpoint>): set<string> {
    if puts == [] then {} else Channels(puts[..|puts| - 1]) + puts[|puts| - 1].state.Keys
  }

  /** The writer never drops a channel the previous put carried. */
  ghost predicate KeepsChannels(puts: seq<Checkpoint>) {
    forall i :: 0 < i < |puts| ==> puts[i - 1].state.Keys <= puts[i].state.Keys
  }

  lemma {:induction false} KeptChannelsAreTheLast(puts: seq<Checkpoint>)
    requires KeepsChannels(puts) && puts != []
    ensures Channels(puts) == puts[|puts| - 1].state.Keys
  {
    var n := |puts| - 1;
    if n > 0 {
      KeptChannelsAreTheLast(puts[..n]);
      assert puts[n - 1].state.Keys <= puts[n].state.Keys;
    } else {
      assert Channels(puts[..0]) == {};
    }
  }

  /** What reading a put back may differ in: channels it did not carry, taken
      from the puts before it. Never a channel it did carry. */
  ghost predicate ReadsBack(files: Files, put: Checkpoint, seen: set<string>) {
    && Resolves(files, put.id)
    && var read := Materialized(files, put.id);
      && read == put.(state := read.state, base := None)
      && SubState(put.state, read.state)
      && read.state.Keys <= seen
  }

  ghost predicate AllReadBack(files: Files, puts: seq<Checkpoint>) {
    puts == [] || (AllReadBack(files, puts[..|puts| - 1]) && ReadsBack(files, puts[|puts| - 1], Channels(puts)))
  }

  ghost function Ids(puts: seq<Checkpoint>): set<Id> {
    if puts == [] then {} else Ids(puts[..|puts| - 1]) + {puts[|puts| - 1].id}
  }

  ghost predicate Records(files: Files, puts: seq<Checkpoint>) {
    FilesNamed(files) && files.Keys == Ids(puts) && AllReadBack(files, puts)
  }

  lemma {:induction false} ReadsBackAt(files: Files, puts: seq<Checkpoint>, i: nat)
    requires AllReadBack(files, puts) && i < |puts|
    ensures ReadsBack(files, puts[i], Channels(puts[..i + 1]))
    ensures puts[i].id in Ids(puts)
    decreases |puts|
  {
    var n := |puts| - 1;
    if i < n {
      ReadsBackAt(files, puts[..n], i);
      assert puts[..n][..i + 1] == puts[..i + 1];
    } else {
      assert puts[..i + 1] == puts;
    }
  }

  lemma {:induction false} IdIsPut(puts: seq<Checkpoint>, id: Id) returns (i: nat)
    requires id in Ids(puts)
    ensures i < |puts| && puts[i].id == id
  {
    var n := |puts| - 1;
    if puts[n].id == id {
      i := n;
    } else {
      i := IdIsPut(puts[..n], id);
    }
  }

  ghost predicate HeadFits(files: Files, id: Id, head: DeltaHead) {
    && Resolves(files, id)
    && head.checkpoint.id == id
    && SubState(head.checkpoint.state, Materialized(files, id).state)
    && head.chainLen + 1 == |ChainTo(files, id)|
  }

  ghost predicate ChainsBounded(files: Files, links: nat) {
    forall id :: id in files && Resolves(files, id) ==> |ChainTo(files, id)| <= links + 1
  }

  /** A put that the encoding turns into file `stored` reads back whole, and
      exactly when no channel of its base is missing from it. */
  lemma StoredPutReadsBack(files: Files, c: Checkpoint, head: Option<DeltaHead>, policy: DeltaPolicy, size: State -> nat)
    requires c.id !in files
    requires head.Some? ==> HeadFits(files, head.value.checkpoint.id, head.value)
    ensures var e := EncodeDelta(c, head, policy, size);
      var after := files[c.id := e.checkpoint];
      && e.checkpoint.id == c.id
      && Resolves(after, c.id)
      && |ChainTo(after, c.id)| == e.chainLen + 1
      && (e.chainLen == 0 || e.chainLen <= policy.maxChainLen)
      && var read := Materialized(after, c.id);
        && read == c.(state := read.state, base := None)
        && SubState(c.state, read.state)
        && (e.checkpoint.base == None ==> read.state == c.state)
        && (e.checkpoint.base.Some? ==>
              && head.Some?
              && var old' := Materialized(files, head.value.checkpoint.id).state;
                && read.state.Keys == old'.Keys + c.state.Keys
                && (read.state == c.state <==> old'.Keys <= c.state.Keys))
  {
    var e := EncodeDelta(c, head, policy, size);
    var after := files[c.id := e.checkpoint];
    if e.checkpoint.base == None {
      MaterializedFull(after, e.checkpoint);
      ChainIsUnique(after, [e.checkpoint], ChainTo(after, c.id), c.id);
    } else {
      var headId := head.value.checkpoint.id;
      ChainsSurvive(files, e.checkpoint, headId);
      MaterializedLink(after, e.checkpoint);
      FoldRestores(c, head.value.checkpoint.state, Materialized(files, headId));
    }
  }

  lemma {:induction false} ReadBackSurvives(files: Files, puts: seq<Checkpoint>, stored: Checkpoint)
    requires AllReadBack(files, puts) && stored.id !in files
    ensures AllReadBack(files[stored.id := stored], puts)
  {
    if puts != [] {
      ReadBackSurvives(files, puts[..|puts| - 1], stored);
      ChainsSurvive(files, stored, puts[|puts| - 1].id);
    }
  }

  lemma RecordsGrow(files: Files, puts: seq<Checkpoint>, c: Checkpoint, stored: Checkpoint)
    requires Records(files, puts) && c.id !in files && stored.id == c.id
    requires ReadsBack(files[c.id := stored], c, Channels(puts) + c.state.Keys)
    ensures Records(files[c.id := stored], puts + [c])
  {
    ReadBackSurvives(files, puts, stored);
    var grown := puts + [c];
    assert grown[..|puts|] == puts && grown[|grown| - 1] == c;
    assert Ids(grown) == Ids(puts) + {c.id};
    assert Channels(grown) == Channels(puts) + c.state.Keys;
  }

  lemma BoundSurvives(files: Files, puts: seq<Checkpoint>, stored: Checkpoint, links: nat)
    requires Records(files, puts) && stored.id !in files && ChainsBounded(files, links)
    requires Resolves(files[stored.id := stored], stored.id)
    requires |ChainTo(files[stored.id := stored], stored.id)| <= links + 1
    ensures ChainsBounded(files[stored.id := stored], links)
  {
    var after := files[stored.id := stored];
    forall id | id in after && Resolves(after, id) ensures |ChainTo(after, id)| <= links + 1 {
      if id != stored.id {
        var i := IdIsPut(puts, id);
        ReadsBackAt(files, puts, i);
        ChainsSurvive(files, stored, id);
      }
    }
  }

  /** The put `c` was added to `before` as a full file or as a link on `last`.
      Reading it back gives the caller's state exactly, unless it is a link whose
      base has channels the put lacks. */
  ghost predicate PutEffect(before: Files, last: Option<Id>, after: Files, c: Checkpoint) {
    && c.id !in before && c.id in after && after == before[c.id := after[c.id]]
    && Resolves(after, c.id)
    && (after[c.id].base.Some? ==> after[c.id].base == last && Resolves(before, last.value))
    && (Materialized(after, c.id).state == c.state
        <==> after[c.id].base == None || Materialized(before, last.value).state.Keys <= c.state.Keys)
  }

  ghost function LastId(puts: seq<Checkpoint>): Option<Id> {
    if puts == [] then None else Some(puts[|puts| - 1].id)
  }

  function HeadId(head: Option<DeltaHead>): Option<Id> {
    if head.Some? then Some(head.value.checkpoint.id) else None
  }

  /** Whatever could be read before is read the same. */
  ghost predicate ReadsStay(before: Files, after: Files) {
    forall id :: id in before && Resolves(before, id) ==>
      id in after && Resolves(after, id) && Materialized(after, id) == Materialized(before, id)
  }

  lemma {:induction false} ChannelsGrow(puts: seq<Checkpoint>, n: nat)
    requires n <= |puts|
    ensures Channels(puts[..n]) <= Channels(puts)
    decreases |puts|
  {
    if n == |puts| {
      assert puts[..n] == puts;
    } else {
      ChannelsGrow(puts[..|puts| - 1], n);
      assert puts[..|puts| - 1][..n] == puts[..n];
    }
  }

  /** Everything one accepted put leaves behind on disk and in the cache, whichever
      stored checkpoint it was diffed against. */
  lemma PutStep(files: Files, puts: seq<Checkpoint>, c: Checkpoint, head: Option<DeltaHead>, policy: DeltaPolicy, size: State -> nat)
    requires Records(files, puts) && c.id !in files
    requires head.Some? ==> HeadId(head).value in files && HeadFits(files, HeadId(head).value, head.value)
    ensures var e := EncodeDelta(c, head, policy, size);
      var after := files[c.id := e.checkpoint];
      && Records(after, puts + [c])
      && HeadFits(after, c.id, DeltaHead(c, e.chainLen))
      && (ChainsBounded(files, policy.maxChainLen) ==> ChainsBounded(after, policy.maxChainLen))
      && PutEffect(files, HeadId(head), after, c) && ReadsStay(files, after)
  {
    var e := EncodeDelta(c, head, policy, size);
    StoredPutReadsBack(files, c, head, policy, size);
    if e.checkpoint.base.Some? {
      var i := IdIsPut(puts, HeadId(head).value);
      ReadsBackAt(files, puts, i);
      ChannelsGrow(puts, i + 1);
    }
    RecordsGrow(files, puts, c, e.checkpoint);
    if ChainsBounded(files, policy.maxChainLen) {
      BoundSurvives(files, puts, e.checkpoint, policy.maxChainLen);
    }
    ReadsSurvive(files, e.checkpoint);
  }

  lemma ReadsSurvive(files: Files, stored: Checkpoint)
    requires stored.id !in files
    ensures ReadsStay(files, files[stored.id := stored])
  {
    forall id | id in files && Resolves(files, id)
      ensures var after := files[stored.id := stored];
        Resolves(after, id) && Materialized(after, id) == Materialized(files, id)
    {
      ChainsSurvive(files, stored, id);
    }
  }

  lemma StoredUnderItsId(c: Checkpoint, head: Option<DeltaHead>, policy: DeltaPolicy, size: State -> nat)
    ensures EncodeDelta(c, head, policy, size).checkpoint.id == c.id
  {
  }

  /** The head stays fitting when a file is added that it does not know of. */
  lemma HeadSurvives(files: Files, stored: Checkpoint, id: Id, head: DeltaHead)
    requires stored.id !in files && id in files && HeadFits(files, id, head)
    ensures HeadFits(files[stored.id := stored], id, head)
  {
    ChainsSurvive(files, stored, id);
  }

  /** A writer that keeps its channels reads every put back unchanged: the
      delta directory answers like the store of full snapshots. */
  lemma KeptChannelsReadBackExactly(files: Files, puts: seq<Checkpoint>, i: nat)
    requires Records(files, puts) && KeepsChannels(puts) && i < |puts|
    ensures Resolves(files, puts[i].id) && Materialized(files, puts[i].id) == puts[i].(base := None)
  {
    ReadsBackAt(files, puts, i);
    KeptChannelsAreTheLast(puts[..i + 1]);
    assert Materialized(files, puts[i].id).state == puts[i].state;
  }

  // ------------------------------------------------------------------
  // The directory scan, for want of a pointer.
  // ------------------------------------------------------------------

  /** By creation time, then by id. */
  predicate NoNewer(a: Checkpoint, b: Checkpoint) {
    a.createdAt < b.createdAt || (a.createdAt == b.createdAt && !Below(b.id, a.id))
  }

  ghost predicate IsNewest(files: Files, id: Id) {
    id in files && forall other :: other in files ==> NoNewer(files[other], files[id])
  }

  lemma NewestOrder(a: Checkpoint, b: Checkpoint, c: Checkpoint)
    ensures NoNewer(a, a)
    ensures NoNewer(a, b) || NoNewer(b, a)
    ensures NoNewer(a, b) && NoNewer(b, c) ==> NoNewer(a, c)
    ensures NoNewer(a, b) && NoNewer(b, a) ==> a.id == b.id
  {
    hide Below;
    BelowIsStrict(a.id);
    BelowIsTotal(a.id, b.id);
    BelowIsTotal(b.id, c.id);
    if Below(a.id, b.id) && Below(b.id, a.id) {
      BelowIsTransitive(a.id, b.id, a.id);
    }
    if Below(c.id, a.id) && Below(a.id, b.id) {
      BelowIsTransitive(c.id, a.id, b.id);
    }
  }

  method ScanNewest(files: Files) returns (id: Id)
    requires files != map[]
    ensures IsNewest(files, id)
  {
    hide NoNewer;
    id :| id in files;
    NewestOrder(files[id], files[id], files[id]);
    var rest := files.Keys - {id};
    while rest != {}
      invariant id in files && rest <= files.Keys
      invariant forall other :: other in files ==> other in rest || NoNewer(files[other], files[id])
      decreases rest
    {
      var next :| next in rest;
      NewestOrder(files[id], files[next], files[next]);
      if NoNewer(files[id], files[next]) {
        forall other | other in files && NoNewer(files[other], files[id]) ensures NoNewer(files[other], files[next]) {
          NewestOrder(files[other], files[id], files[next]);
        }
        NewestOrder(files[next], files[next], files[next]);
        id := next;
      }
      rest := rest - {next};
    }
  }

  lemma StoredIsMaterialized(files: Files, id: Id)
    requires FilesNamed(files) && id in files && Resolves(files, id)
    ensures Materialized(files, id).createdAt == files[id].createdAt && Materialized(files, id).id == id
  {
    hide Materialized;
    if files[id].base == None {
      MaterializedFull(files, files[id]);
    } else {
      MaterializedLink(files, files[id]);
    }
  }

  ghost predicate LastIsNewest(puts: seq<Checkpoint>)
    requires puts != []
  {
    forall i :: 0 <= i < |puts| ==> NoNewer(puts[i], puts[|puts| - 1])
  }

  /** The scan finds the last put exactly when no put was stamped later. */
  lemma ScanFindsTheLastPutExactly(files: Files, puts: seq<Checkpoint>)
    requires Records(files, puts) && puts != []
    ensures IsNewest(files, puts[|puts| - 1].id) <==> LastIsNewest(puts)
  {
    hide NoNewer, Materialized, Channels, AllReadBack, Ids;
    forall i | 0 <= i < |puts|
      ensures puts[i].id in files && files[puts[i].id].createdAt == puts[i].createdAt && files[puts[i].id].id == puts[i].id
    {
      ReadsBackAt(files, puts, i);
      StoredIsMaterialized(files, puts[i].id);
    }
    var last := puts[|puts| - 1];
    forall i | 0 <= i < |puts| ensures NoNewer(files[puts[i].id], files[last.id]) <==> NoNewer(puts[i], last) {
      SameStamps(files[puts[i].id], puts[i], files[last.id], last);
    }
    if LastIsNewest(puts) {
      forall other | other in files ensures NoNewer(files[other], files[last.id]) {
        var i := IdIsPut(puts, other);
      }
    }
  }

  lemma SameStamps(a: Checkpoint, a': Checkpoint, b: Checkpoint, b': Checkpoint)
    requires a.createdAt == a'.createdAt && a.id == a'.id && b.createdAt == b'.createdAt && b.id == b'.id
    ensures NoNewer(a, b) <==> NoNewer(a', b')
  {
  }

  /** What is read as the latest checkpoint: the one the latest file names, or the newest
      of the directory when it names none that is there. */
  ghost predicate IsCurrent(files: Files, pointer: Option<Id>, id: Id) {
    id in files && (if pointer.Some? && pointer.value in files then id == pointer.value else IsNewest(files, id))
  }

  class ThreadStore {
    var files: Files
    var latest: Option<Id>
    var head: Option<DeltaHead>
    var policy: DeltaPolicy
    const size: State -> nat

    /** Every put whose file was written, oldest first, exactly as the caller handed
        it in: the content of the in-memory store. */
    ghost var puts: seq<Checkpoint>

    /** A put that stopped between its file and the pointer leaves the pointer behind. */
    ghost predicate Valid()
      reads this
    {
      && Records(files, puts)
      && (latest.Some? ==> latest.value in files)
      && (head.Some? ==>
            && HeadId(head).value in files && HeadFits(files, HeadId(head).value, head.value)
            && (latest.Some? ==> latest == HeadId(head)))
    }

    /** No put has stopped there since the last one that did not. */
    ghost predicate Pointed()
      reads this
    {
      latest == LastId(puts)
    }

    constructor (policy: DeltaPolicy, size: State -> nat)
      ensures Valid() && Pointed() && puts == [] && this.policy == policy && ChainsBounded(files, policy.maxChainLen)
    {
      files, latest, head, puts := map[], None, None, [];
      this.policy, this.size := policy, size;
    }

    /** A new process over the same directory, possibly with another policy. */
    method Reopen(policy: DeltaPolicy)
      requires Valid()
      modifies this`head, this`policy
      ensures Valid() && this.policy == policy && head == None
    {
      head, this.policy := None, policy;
    }

    /** The id under which the latest checkpoint is found. */
    method CurrentId(pointer: Option<Id>) returns (id: Option<Id>)
      requires Valid()
      ensures id.None? <==> puts == []
      ensures id.Some? ==> IsCurrent(files, pointer, id.value) && Resolves(files, id.value)
    {
      FilesArePuts(files, puts);
      if pointer.Some? && pointer.value in files {
        id := pointer;
      } else if files == map[] {
        return None;
      } else {
        var newest := ScanNewest(files);
        id := Some(newest);
      }
      ghost var i := IdIsPut(puts, id.value);
      ReadsBackAt(files, puts, i);
    }

    /** The head to diff the next put against: cached, or folded from disk. */
    method HeadOf() returns (r: Result<Option<DeltaHead>, Failure>)
      requires Valid()
      modifies this`head
      ensures Valid()
      ensures r.Ok? ==> head == r.value && (head.None? <==> puts == [])
      ensures r.Ok? && old(head).None? && head.Some? ==> IsCurrent(files, latest, HeadId(head).value)
      ensures r.Err? ==>
                r.error == TooLong && head == old(head) && !ChainsBounded(files, policy.maxChainLen)
    {
      hide Records, AllReadBack, Channels, IsNewest;
      if head.Some? {
        FilesArePuts(files, puts);
        return Ok(head);
      }
      var id := CurrentId(latest);
      if id.None? {
        return Ok(None);
      }
      NamedFiles(files, puts);
      var chain := LoadChain(files, files[id.value], policy);
      if chain.Err? {
        return Err(chain.error);
      }
      var folded := FoldStoredChain(chain.value);
      MaterializedByChain(files, chain.value, id.value);
      ChainIsUnique(files, chain.value, ChainTo(files, id.value), id.value);
      head := Some(DeltaHead(folded.value, |chain.value| - 1));
      return Ok(head);
    }

    /** Write the checkpoint file; unless that is where it stops, the latest pointer
        and then the cache. */
    method Write(c: Checkpoint, current: Option<DeltaHead>, pointerFails: bool)
      requires Valid() && c.id !in files
      requires current.Some? ==> HeadId(current).value in files && HeadFits(files, HeadId(current).value, current.value)
      modifies this`files, this`latest, this`head, this`puts
      ensures Valid() && puts == old(puts) + [c]
      ensures PutEffect(old(files), HeadId(current), files, c) && ReadsStay(old(files), files)
      ensures StoredAs(c, current, policy, size, files[c.id])
      ensures pointerFails ==> latest == old(latest) && head == old(head)
      ensures !pointerFails ==>
                && Pointed()
                && head == Some(DeltaHead(c, if files[c.id].base.None? then 0 else current.value.chainLen + 1))
      ensures old(ChainsBounded(files, policy.maxChainLen)) ==> ChainsBounded(files, policy.maxChainLen)
    {
      hide Records, PutEffect, ReadsStay, HeadFits, ChainsBounded, EncodeDelta, StoredAs;
      var e := EncodeDelta(c, current, policy, size);
      PutStep(files, puts, c, current, policy, size);
      StoredUnderItsId(c, current, policy, size);
      EncodesExactly(c, current, policy, size);
      if head.Some? {
        HeadSurvives(files, e.checkpoint, HeadId(head).value, head.value);
      }
      files := files[c.id := e.checkpoint];
      puts := puts + [c];
      if pointerFails {
        return;
      }
      latest := Some(c.id);
      head := Some(DeltaHead(c, e.chainLen));
    }

    /** A put; `pointerFails` says that its file is written and its pointer is not. The
        next put, of this process or another, starts from a valid store all the same. */
    method Put(c: Checkpoint, forceFull: bool, pointerFails: bool) returns (r: Result<(), Failure>, ghost last: Option<DeltaHead>)
      requires Valid()
      modifies this`files, this`latest, this`head, this`puts
      ensures Valid()
      ensures old(c.id in files) <==> r == Err(DuplicateId)
      ensures r == Err(PointerFailed) ==> pointerFails && latest == old(latest)
      ensures r.Ok? ==> !pointerFails && Pointed()
      ensures r.Ok? || r.error == PointerFailed ==>
                && puts == old(puts) + [c] && PutEffect(old(files), HeadId(last), files, c)
                && StoredAs(c, last, policy, size, files[c.id])
                && (last.None? <==> forceFull || old(puts) == [])
                && (last.Some? ==>
                      && HeadFits(old(files), HeadId(last).value, last.value)
                      && (old(latest).Some? ==> HeadId(last) == old(latest))
                      && (old(head).None? ==> IsCurrent(old(files), old(latest), HeadId(last).value)))
      ensures r.Err? && r.error != PointerFailed ==> puts == old(puts) && files == old(files) && latest == old(latest)
      ensures ReadsStay(old(files), files)
      ensures old(ChainsBounded(files, policy.maxChainLen)) ==>
                ChainsBounded(files, policy.maxChainLen) && (r.Ok? || r.error == DuplicateId || r.error == PointerFailed)
    {
      hide Records, PutEffect, HeadFits, ChainsBounded, EncodeDelta, StoredAs;
      last := None;
      if c.id in files {
        return Err(DuplicateId), last;
      }
      var current: Option<DeltaHead> := None;
      if !forceFull {
        var h := HeadOf();
        if h.Err? {
          return Err(h.error), last;
        }
        current := h.value;
      }
      last := current;
      Write(c, current, pointerFails);
      return if pointerFails then Err(PointerFailed) else Ok(()), last;
    }

    method GetById(id: Id) returns (r: Result<Option<Checkpoint>, Failure>)
      requires Valid()
      ensures id !in files ==> r == Ok(None)
      ensures id in files ==>
                Resolves(files, id) && (r == Ok(Some(Materialized(files, id))) || r == Err(TooLong))
      ensures r.Err? ==> !ChainsBounded(files, policy.maxChainLen)
    {
      if id !in files {
        return Ok(None);
      }
      var raw := files[id];
      ghost var i := IdIsPut(puts, id);
      ReadsBackAt(files, puts, i);
      if raw.base.None? {
        MaterializedFull(files, raw);
        return Ok(Some(raw));
      }
      var chain := LoadChain(files, raw, policy);
      if chain.Err? {
        return Err(chain.error);
      }
      MaterializedByChain(files, chain.value, id);
      var folded := FoldStoredChain(chain.value);
      return Ok(Some(folded.value));
    }

    /** Reading through whatever the pointer file says: the checkpoint it names,
        or the newest of the directory when it names none. */
    method ReadThrough(pointer: Option<Id>) returns (r: Result<Option<Checkpoint>, Failure>)
      requires Valid()
      ensures r.Err? ==> r.error == TooLong && !ChainsBounded(files, policy.maxChainLen)
      ensures r.Ok? ==> (puts == [] <==> r.value == None)
      ensures r.Ok? && puts != [] ==>
                exists id :: IsCurrent(files, pointer, id) && Resolves(files, id) && r.value == Some(Materialized(files, id))
    {
      var id := CurrentId(pointer);
      if id.None? {
        return Ok(None);
      }
      r := GetById(id.value);
    }

    /** The last put wins, whatever its step; one that stopped before its pointer does
        not, and the one before it is read as ever. */
    method GetLatest() returns (r: Result<Option<Checkpoint>, Failure>)
      requires Valid()
      ensures puts == [] ==> r == Ok(None)
      ensures latest.Some? ==>
                Resolves(files, latest.value) && (r == Ok(Some(Materialized(files, latest.value))) || r == Err(TooLong))
      ensures r.Err? ==> !ChainsBounded(files, policy.maxChainLen)
      ensures puts != [] && Pointed() && KeepsChannels(puts) && r.Ok? ==> r == Ok(Some(puts[|puts| - 1].(base := None)))
    {
      FilesArePuts(files, puts);
      if latest.Some? {
        ghost var i := IdIsPut(puts, latest.value);
        ReadsBackAt(files, puts, i);
      }
      if puts != [] && KeepsChannels(puts) {
        KeptChannelsReadBackExactly(files, puts, |puts| - 1);
      }
      r := ReadThrough(latest);
    }

    /** With the pointer lost, the last put still wins if it was stamped last. */
    method GetLatestWithoutPointer(pointer: Option<Id>) returns (r: Result<Option<Checkpoint>, Failure>)
      requires Valid() && (pointer.None? || pointer.value !in files)
      ensures puts == [] ==> r == Ok(None)
      ensures puts != [] && LastIsNewest(puts) ==>
                Resolves(files, puts[|puts| - 1].id)
                && (r == Ok(Some(Materialized(files, puts[|puts| - 1].id))) || r == Err(TooLong))
      ensures r.Err? ==> !ChainsBounded(files, policy.maxChainLen)
    {
      hide Records, Materialized, AllReadBack, Channels, NoNewer;
      FilesArePuts(files, puts);
      r := ReadThrough(pointer);
      if puts != [] && LastIsNewest(puts) {
        ScanFindsTheLastPutExactly(files, puts);
        PutIsStored(files, puts, |puts| - 1);
        if r.Ok? {
          ghost var id :| IsCurrent(files, pointer, id) && Resolves(files, id) && r.value == Some(Materialized(files, id));
          NewestOrder(files[id], files[puts[|puts| - 1].id], files[id]);
          NamedFiles(files, puts);
        }
      }
    }
  }

  lemma PutIsStored(files: Files, puts: seq<Checkpoint>, i: nat)
    requires Records(files, puts) && i < |puts|
    ensures puts[i].id in files && Resolves(files, puts[i].id)
  {
    hide Materialized;
    ReadsBackAt(files, puts, i);
  }

  lemma NamedFiles(files: Files, puts: seq<Checkpoint>)
    requires Records(files, puts)
    ensures FilesNamed(files)
  {
  }

  lemma FilesArePuts(files: Files, puts: seq<Checkpoint>)
    requires Records(files, puts)
    ensures files == map[] <==> puts == []
  {
    if puts != [] {
      assert puts[|puts| - 1].id in files;
    } else {
      assert files.Keys == {};
    }
  }

  /** Whatever the policy and the sizes, a put that is stored as a link gets back
      every channel of its head that it lacks. */
  lemma DroppedChannelComesBack(head: Checkpoint, c: Checkpoint, chainLen: nat, policy: DeltaPolicy, size: State -> nat,
                                channel: string)
    requires channel in head.state && channel !in c.state
    ensures var e := EncodeDelta(c, Some(DeltaHead(head, chainLen)), policy, size);
      && (e.checkpoint.base.Some? <==>
            && chainLen < policy.maxChainLen
            && (size(ChangedSince(c.state, head.state)) as real) < policy.maxByteRatio * size(c.state) as real)
      && (e.checkpoint.base.Some? ==>
            var read := FoldDelta(head, e.checkpoint);
            channel in read.state && read.state[channel] == head.state[channel] && read.state != c.state)
  {
    var e := EncodeDelta(c, Some(DeltaHead(head, chainLen)), policy, size);
    assert channel !in e.checkpoint.state;
    assert channel in (head.state + e.checkpoint.state);
  }

  /** A replay from an earlier boundary does that: its link is empty. */
  lemma ReplayBringsBack(size: State -> nat)
    requires (size(map[]) as real) < 0.8 * size(map["a" := Json.Null]) as real
    ensures var head := Checkpoint("head", "t", 1, map["a" := Json.Null, "b" := Json.Null], [], 0, Json.Null, None, None);
      var c := head.(id := "replayed", step := 0, state := map["a" := Json.Null]);
      "b" in FoldDelta(head, EncodeDelta(c, Some(DeltaHead(head, 0)), DeltaPolicy(32, 0.8), size).checkpoint).state
  {
    var head := Checkpoint("head", "t", 1, map["a" := Json.Null, "b" := Json.Null], [], 0, Json.Null, None, None);
    var c := head.(id := "replayed", step := 0, state := map["a" := Json.Null]);
    assert ChangedSince(c.state, head.state) == map[];
    DroppedChannelComesBack(head, c, 0, DeltaPolicy(32, 0.8), size, "b");
  }
}
