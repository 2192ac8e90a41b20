/** The credential mediator: handles issued by a broker, kept in a cache that
    mediators of one tenant share, and served while they are live. */
module Mediation {
  import opened Tokens
  import opened Wrappers

  datatype Key = Key(runId: Option<string>, connectionId: string, scopes: set<string>)

  datatype Request = Request(tenant: string, key: Key)

  datatype Entry = Entry(handle: Handle, renewAfter: int)

  /** Three quarters through the lifetime. */
  function RenewAfter(c: Claims): int {
    c.issuedAt + (c.expiresAt - c.issuedAt) * 3 / 4
  }

  /** Renewal comes before expiry exactly when the lifetime is not negative by
      four nanoseconds or more. */
  lemma RenewalIsInTime(c: Claims)
    ensures (forall now: int {:trigger Early(c, now)} :: Early(c, now) ==> now < c.expiresAt)
       <==> c.issuedAt - c.expiresAt < 4
  {
    if c.issuedAt - c.expiresAt >= 4 {
      assert Early(c, c.expiresAt);
    }
  }

  predicate Early(c: Claims, now: int) {
    now < RenewAfter(c)
  }

  /** What the cache answers: a live entry for the key, if any. */
  function Serve(entry: Option<Entry>, now: int): Option<Handle> {
    if entry.Some? && now < entry.value.renewAfter then Some(entry.value.handle) else None
  }

  function Find(cache: map<Key, Entry>, key: Key): Option<Entry> {
    if key in cache then Some(cache[key]) else None
  }

  function Keep(cache: map<Key, Entry>, key: Key, h: Handle): map<Key, Entry> {
    cache[key := Entry(h, RenewAfter(h.claims))]
  }

  // ------------------------------------------------------------------
  // One mediator at a time.
  // ------------------------------------------------------------------

  class HandleCache {
    var entries: map<Key, Entry>

    constructor ()
      ensures entries == map[]
    {
      entries := map[];
    }
  }

  class CredentialMediator {
    const tenant: string
    const runId: Option<string>
    const handles: HandleCache

    constructor (tenant: string, runId: Option<string>, handles: HandleCache)
      ensures this.tenant == tenant && this.runId == runId && this.handles == handles
    {
      this.tenant, this.runId, this.handles := tenant, runId, handles;
    }

    /** The same mediator for another run, on the same cache. */
    method ForRun(runId: Option<string>) returns (m: CredentialMediator)
      ensures fresh(m) && m.tenant == tenant && m.runId == runId && m.handles == handles
    {
      m := new CredentialMediator(tenant, runId, handles);
    }

    /** One uninterrupted issuance at instant `now`; `answer` is what the broker
        would say. */
    method Issue(connectionId: string, scopes: set<string>, now: int, answer: Option<Handle>)
      returns (r: Option<Handle>)
      modifies handles
      ensures var key := Key(runId, connectionId, scopes);
        var live := key in old(handles.entries) && now < old(handles.entries)[key].renewAfter;
        && r == (if live then Some(old(handles.entries)[key].handle) else answer)
        && handles.entries == if live || answer.None? then old(handles.entries)
                              else old(handles.entries)[key := Entry(answer.value, RenewAfter(answer.value.claims))]
    {
      var key := Key(runId, connectionId, scopes);
      if key in handles.entries {
        var entry := handles.entries[key];
        if now < entry.renewAfter {
          return Some(entry.handle);
        }
      }
      if answer.None? {
        return None;
      }
      handles.entries := handles.entries[key := Entry(answer.value, RenewAfter(answer.value.claims))];
      return answer;
    }
  }

  // ------------------------------------------------------------------
  // Any interleaving.
  // ------------------------------------------------------------------

  /** A call to `issue` between its atomic sections: it has read the cache, or
      waits for the broker, or has yet to store the answer, or is over. */
  datatype Task =
    | Looked(request: Request, entry: Option<Entry>)
    | Waiting(request: Request)
    | Answered(request: Request, handle: Handle)
    | Served(request: Request, handle: Handle, at: int)
    | Issued(request: Request, handle: Handle)
    | Denied(request: Request)

  /** The shared cache, the calls begun, and all the broker ever minted. */
  datatype State = State(tenant: string, cache: map<Key, Entry>, tasks: map<nat, Task>, minted: set<(Request, Handle)>)

  datatype Move =
    | Look(task: nat, key: Key)
    | Decide(task: nat, now: int)
    | Answer(task: nat, handle: Handle)
    | Refuse(task: nat)
    | Store(task: nat)

  /** The broker only mints handles that expire after they are issued. */
  predicate Enabled(s: State, m: Move) {
    match m
    case Look(t, _) => t !in s.tasks
    case Decide(t, _) => t in s.tasks && s.tasks[t].Looked?
    case Answer(t, h) => t in s.tasks && s.tasks[t].Waiting? && h.claims.issuedAt < h.claims.expiresAt
    case Refuse(t) => t in s.tasks && s.tasks[t].Waiting?
    case Store(t) => t in s.tasks && s.tasks[t].Answered?
  }

  function Apply(s: State, m: Move): State
    requires Enabled(s, m)
  {
    match m
    case Look(t, key) => s.(tasks := s.tasks[t := Looked(Request(s.tenant, key), Find(s.cache, key))])
    case Decide(t, now) =>
      var task := s.tasks[t];
      var served := Serve(task.entry, now);
      s.(tasks := s.tasks[t := if served.Some? then Served(task.request, served.value, now) else Waiting(task.request)])
    case Answer(t, h) =>
      var request := s.tasks[t].request;
      s.(tasks := s.tasks[t := Answered(request, h)], minted := s.minted + {(request, h)})
    case Refuse(t) => s.(tasks := s.tasks[t := Denied(s.tasks[t].request)])
    case Store(t) =>
      var task := s.tasks[t];
      s.(tasks := s.tasks[t := Issued(task.request, task.handle)], cache := Keep(s.cache, task.request.key, task.handle))
  }

  predicate Legal(s: State, moves: seq<Move>)
    decreases |moves|
  {
    moves == [] || (Enabled(s, moves[0]) && Legal(Apply(s, moves[0]), moves[1..]))
  }

  function After(s: State, moves: seq<Move>): State
    requires Legal(s, moves)
    decreases |moves|
  {
    if moves == [] then s else After(Apply(s, moves[0]), moves[1..])
  }

  function Fresh(tenant: string): State {
    State(tenant, map[], map[], {})
  }

  /** The entry was minted for exactly this request and is renewed in time. */
  ghost predicate EntryOk(s: State, request: Request, e: Entry) {
    && (request, e.handle) in s.minted
    && e.renewAfter == RenewAfter(e.handle.claims) && e.handle.claims.issuedAt < e.handle.claims.expiresAt
  }

  ghost predicate TaskOk(s: State, t: Task) {
    && t.request.tenant == s.tenant
    && match t
       case Looked(request, entry) => entry.Some? ==> EntryOk(s, request, entry.value)
       case Waiting(_) => true
       case Answered(request, h) => (request, h) in s.minted && h.claims.issuedAt < h.claims.expiresAt
       case Served(request, h, at) => (request, h) in s.minted && at < h.claims.expiresAt
       case Issued(request, h) => (request, h) in s.minted
       case Denied(_) => true
  }

  ghost predicate Safe(s: State) {
    && (forall key :: key in s.cache ==> EntryOk(s, Request(s.tenant, key), s.cache[key]))
    && (forall t :: t in s.tasks ==> TaskOk(s, s.tasks[t]))
  }

  lemma MintingKeeps(s: State, s': State, request: Request, e: Entry, t: Task)
    requires s.minted <= s'.minted && s.tenant == s'.tenant
    ensures EntryOk(s, request, e) ==> EntryOk(s', request, e)
    ensures TaskOk(s, t) ==> TaskOk(s', t)
  {
  }

  lemma MoveKeepsSafe(s: State, m: Move)
    requires Safe(s) && Enabled(s, m)
    ensures Safe(Apply(s, m))
  {
    hide RenewAfter;
    var s' := Apply(s, m);
    forall request: Request, e: Entry, t: Task
      ensures EntryOk(s, request, e) ==> EntryOk(s', request, e)
      ensures TaskOk(s, t) ==> TaskOk(s', t)
    {
      MintingKeeps(s, s', request, e, t);
    }
    assert TaskOk(s', s'.tasks[m.task]) by {
      if m.Decide? {
        var entry := s.tasks[m.task].entry;
        if entry.Some? {
          RenewedBeforeExpiry(entry.value.handle.claims);
        }
      }
    }
  }

  lemma RenewedBeforeExpiry(c: Claims)
    requires c.issuedAt < c.expiresAt
    ensures RenewAfter(c) < c.expiresAt
  {
  }

  lemma {:induction false} LegalRunsAreSafe(s: State, moves: seq<Move>)
    requires Safe(s) && Legal(s, moves)
    ensures Safe(After(s, moves)) && After(s, moves).tenant == s.tenant
    decreases |moves|
  {
    hide Safe, Enabled;
    if moves != [] {
      MoveKeepsSafe(s, moves[0]);
      LegalRunsAreSafe(Apply(s, moves[0]), moves[1..]);
    }
  }

  /** However calls interleave and whatever the clock reads, a handle served from
      the cache was minted for exactly that tenant, run, connection and scopes,
      and has not expired. */
  lemma ServedHandlesAreLive(tenant: string, moves: seq<Move>, t: nat)
    requires Legal(Fresh(tenant), moves)
    requires t in After(Fresh(tenant), moves).tasks && After(Fresh(tenant), moves).tasks[t].Served?
    ensures var s := After(Fresh(tenant), moves);
      var task := s.tasks[t];
      task.request.tenant == tenant && (task.request, task.handle) in s.minted && task.at < task.handle.claims.expiresAt
  {
    hide Legal, After;
    LegalRunsAreSafe(Fresh(tenant), moves);
  }

  function IssueMoves(s: State, t: nat, key: Key, now: int, answer: Option<Handle>): seq<Move> {
    [Look(t, key), Decide(t, now)] +
      if Serve(Find(s.cache, key), now).Some? then []
      else if answer.None? then [Refuse(t)]
      else [Answer(t, answer.value), Store(t)]
  }

  /** How an uninterrupted issuance ends. */
  function Outcome(s: State, key: Key, now: int, answer: Option<Handle>): Task {
    var request, served := Request(s.tenant, key), Serve(Find(s.cache, key), now);
    if served.Some? then Served(request, served.value, now)
    else if answer.None? then Denied(request)
    else Issued(request, answer.value)
  }

  lemma RunOfFirst(s: State, m: Move, rest: seq<Move>)
    requires Enabled(s, m) && Legal(Apply(s, m), rest)
    ensures Legal(s, [m] + rest) && After(s, [m] + rest) == After(Apply(s, m), rest)
  {
    hide Enabled, Apply;
    assert ([m] + rest)[1..] == rest;
  }

  /** An uninterrupted issuance is such a run. It answers and leaves the cache as
      the mediator's method does. */
  lemma IssueIsARun(s: State, t: nat, key: Key, now: int, answer: Option<Handle>)
    requires t !in s.tasks && (answer.Some? ==> answer.value.claims.issuedAt < answer.value.claims.expiresAt)
    ensures var moves := IssueMoves(s, t, key, now, answer);
      && Legal(s, moves)
      && var s' := After(s, moves);
        && t in s'.tasks && s'.tasks[t] == Outcome(s, key, now, answer)
        && s'.cache == if Serve(Find(s.cache, key), now).None? && answer.Some? then Keep(s.cache, key, answer.value)
                       else s.cache
  {
    hide Keep, Serve, Find;
    var looked := Apply(s, Look(t, key));
    var decided := Apply(looked, Decide(t, now));
    var rest := IssueMoves(s, t, key, now, answer)[2..];
    if Serve(Find(s.cache, key), now).None? {
      if answer.None? {
        RunOfFirst(decided, Refuse(t), []);
        assert [Refuse(t)] + [] == rest;
      } else {
        var answered := Apply(decided, Answer(t, answer.value));
        RunOfFirst(answered, Store(t), []);
        RunOfFirst(decided, Answer(t, answer.value), [Store(t)] + []);
        assert [Answer(t, answer.value)] + ([Store(t)] + []) == rest;
      }
    }
    RunOfFirst(looked, Decide(t, now), rest);
    RunOfFirst(s, Look(t, key), [Decide(t, now)] + rest);
    assert IssueMoves(s, t, key, now, answer) == [Look(t, key)] + ([Decide(t, now)] + rest);
  }

  // ------------------------------------------------------------------
  // What a call is served, told from the moves before it.
  // ------------------------------------------------------------------

  lemma {:induction false} RunOfLast(s: State, moves: seq<Move>)
    requires moves != [] && Legal(s, moves)
    ensures var init, last := moves[..|moves| - 1], moves[|moves| - 1];
      && Legal(s, init) && Enabled(After(s, init), last) && After(s, moves) == Apply(After(s, init), last)
    decreases |moves|
  {
    hide Enabled, Apply;
    var n := |moves| - 1;
    if n > 0 {
      RunOfLast(Apply(s, moves[0]), moves[1..]);
      assert moves[1..][..n - 1] == moves[..n][1..];
    }
  }

  lemma {:induction false} RunOfPrefix(s: State, moves: seq<Move>, i: nat)
    requires Legal(s, moves) && i <= |moves|
    ensures Legal(s, moves[..i])
    decreases |moves|
  {
    hide Enabled, Apply;
    if i < |moves| {
      RunOfLast(s, moves);
      RunOfPrefix(s, moves[..|moves| - 1], i);
      assert moves[..|moves| - 1][..i] == moves[..i];
    } else {
      assert moves[..i] == moves;
    }
  }

  /** A call's key and its handle are those of its own moves. */
  lemma {:induction false} CallsAreTheirMoves(tenant: string, moves: seq<Move>, t: nat)
    requires Legal(Fresh(tenant), moves)
    ensures var tasks := After(Fresh(tenant), moves).tasks;
      && (t in tasks ==> tasks[t].request.tenant == tenant)
      && (forall key :: Look(t, key) in moves <==> t in tasks && tasks[t].request.key == key)
      && (forall h :: Answer(t, h) in moves <==>
                        t in tasks && (tasks[t].Answered? || tasks[t].Issued?) && tasks[t].handle == h)
  {
    hide After, Legal, Find, Serve, Keep;
    if moves == [] {
      StartsFresh(tenant);
    } else {
      var init, last := moves[..|moves| - 1], moves[|moves| - 1];
      RunOfLast(Fresh(tenant), moves);
      TenantStays(tenant, init);
      CallsAreTheirMoves(tenant, init, t);
      assert moves == init + [last];
    }
  }

  lemma StartsFresh(tenant: string)
    ensures Legal(Fresh(tenant), []) && After(Fresh(tenant), []) == Fresh(tenant)
  {
  }

  lemma {:induction false} TenantStays(tenant: string, moves: seq<Move>)
    requires Legal(Fresh(tenant), moves)
    ensures After(Fresh(tenant), moves).tenant == tenant
  {
    hide After, Legal, Find, Serve, Keep;
    if moves == [] {
      StartsFresh(tenant);
    } else {
      RunOfLast(Fresh(tenant), moves);
      TenantStays(tenant, moves[..|moves| - 1]);
    }
  }

  /** Move `i` stores a handle for the key. */
  ghost predicate StoresFor(moves: seq<Move>, i: nat, key: Key)
    requires i < |moves|
  {
    moves[i].Store? && Look(moves[i].task, key) in moves[..i]
  }

  /** The last move that stores a handle for the key; -1 when there is none. */
  ghost function LastStore(moves: seq<Move>, key: Key): (i: int)
    ensures -1 <= i < |moves|
  {
    if moves == [] then -1
    else if StoresFor(moves, |moves| - 1, key) then |moves| - 1
    else LastStore(moves[..|moves| - 1], key)
  }

  /** The cache holds, for each key, the handle stored last. */
  lemma {:induction false} CacheIsLastStored(tenant: string, moves: seq<Move>, key: Key)
    requires Legal(Fresh(tenant), moves)
    ensures var cache, i := After(Fresh(tenant), moves).cache, LastStore(moves, key);
      && (key in cache <==> i >= 0)
      && (i >= 0 ==>
            Answer(moves[i].task, cache[key].handle) in moves[..i] && cache[key].renewAfter == RenewAfter(cache[key].handle.claims))
  {
    hide After, Legal, Find, Serve, RenewAfter;
    if moves == [] {
      StartsFresh(tenant);
    } else {
      var n := |moves| - 1;
      var init, last := moves[..n], moves[n];
      RunOfLast(Fresh(tenant), moves);
      CacheIsLastStored(tenant, init, key);
      if last.Store? {
        CallsAreTheirMoves(tenant, init, last.task);
      }
      assert forall i :: 0 <= i < n ==> init[..i] == moves[..i];
    }
  }

  /** A call that has looked remembers what the cache held then. */
  lemma {:induction false} LookedRemembers(tenant: string, moves: seq<Move>, t: nat, key: Key, i: nat)
    requires Legal(Fresh(tenant), moves) && i < |moves| && moves[i] == Look(t, key) && Legal(Fresh(tenant), moves[..i])
    requires t in After(Fresh(tenant), moves).tasks && After(Fresh(tenant), moves).tasks[t].Looked?
    ensures After(Fresh(tenant), moves).tasks[t].entry == Find(After(Fresh(tenant), moves[..i]).cache, key)
  {
    hide After, Legal, Find, Serve, Keep;
    var n := |moves| - 1;
    RunOfLast(Fresh(tenant), moves);
    if i < n {
      assert moves[..n][i] == moves[i] && moves[..n][..i] == moves[..i];
      CallsAreTheirMoves(tenant, moves[..n], t);
      assert Look(t, key) in moves[..n];
      LookedRemembers(tenant, moves[..n], t, key, i);
    }
  }

  /** Fewer than three quarters of the lifetime have passed, by a nanosecond. */
  ghost predicate Young(c: Claims, now: int) {
    4 * (now - c.issuedAt + 1) <= 3 * (c.expiresAt - c.issuedAt)
  }

  /** Under every interleaving a call is served exactly when a handle was stored for
      its key before it looked and the last such is young, and is served that one. */
  lemma YoungHandlesAreServed(tenant: string, moves: seq<Move>, t: nat, key: Key, now: int, i: nat, h: Handle)
    requires Legal(Fresh(tenant), moves) && i < |moves| && moves[i] == Look(t, key)
    requires moves[|moves| - 1] == Decide(t, now)
    ensures var tasks, k := After(Fresh(tenant), moves).tasks, LastStore(moves[..i], key);
      && t in tasks
      && (k < 0 ==> tasks[t] == Waiting(Request(tenant, key)))
      && (k >= 0 && Answer(moves[k].task, h) in moves[..k] ==>
            tasks[t] == if Young(h.claims, now) then Served(Request(tenant, key), h, now) else Waiting(Request(tenant, key)))
  {
    hide After, Legal, Keep;
    var n, s0 := |moves| - 1, Fresh(tenant);
    var init := moves[..n];
    RunOfLast(s0, moves);
    RunOfPrefix(s0, moves, i);
    assert init[i] == moves[i] && init[..i] == moves[..i];
    LookedRemembers(tenant, init, t, key, i);
    CallsAreTheirMoves(tenant, init, t);
    assert Look(t, key) in init;
    CacheIsLastStored(tenant, moves[..i], key);
    var k := LastStore(moves[..i], key);
    if k >= 0 {
      assert moves[..i][k] == moves[k] && moves[..i][..k] == moves[..k];
      RunOfPrefix(s0, moves, k);
      CallsAreTheirMoves(tenant, moves[..k], moves[k].task);
    }
  }
}
