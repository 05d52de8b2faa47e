/**
  The request-id cache of app/security/idempotency.py and the way detect_post drives it
  (app/api/detect.py).  Each locked section reads the clock once.
 */
module Idempotency {
  import opened Wrappers

  type RequestId = nat
  type Response = string

  datatype ReserveOutcome = New | InProgress | Completed

  datatype Entry = Entry(state: ReserveOutcome, response: Option<Response>, createdAt: real)

  type Store = map<RequestId, Entry>

  predicate Stale(e: Entry, now: real, ttl: real) { e.createdAt < now - ttl }

  /** The store without the entries that have aged out. */
  function Evicted(store: Store, now: real, ttl: real): Store {
    map k | k in store && !Stale(store[k], now, ttl) :: store[k]
  }

  function Reserved(store: Store, id: RequestId, now: real, ttl: real): Store {
    var live := Evicted(store, now, ttl);
    if id in live then live else live[id := Entry(InProgress, None, now)]
  }

  function ReserveReply(store: Store, id: RequestId, now: real, ttl: real): (ReserveOutcome, Option<Response>) {
    var live := Evicted(store, now, ttl);
    if id in live then (live[id].state, live[id].response) else (New, None)
  }

  function CompletedWith(store: Store, id: RequestId, response: Response, now: real): Store {
    store[id := Entry(Completed, Some(response), now)]
  }

  /** Drops a reservation that is still in progress, and nothing else. */
  function Released(store: Store, id: RequestId): Store {
    if id in store && store[id].state.InProgress? then store - {id} else store
  }

  class IdempotencyCache {
    var store: Store
    const ttl: real

    constructor (ttl: real)
      ensures store == map[] && this.ttl == ttl
    {
      store, this.ttl := map[], ttl;
    }

    method EvictExpired(now: real)
      modifies this
      ensures store == Evicted(old(store), now, ttl)
    {
      var stale := set k | k in store && Stale(store[k], now, ttl);
      var left := stale;
      while left != {}
        invariant left <= stale
        invariant store == old(store) - (stale - left)
        decreases |left|
      {
        var k :| k in left;
        store := store - {k};
        left := left - {k};
      }
      assert stale - left == stale && old(store) - stale == Evicted(old(store), now, ttl);
    }

    method Reserve(id: RequestId, now: real) returns (outcome: ReserveOutcome, cached: Option<Response>)
      modifies this
      ensures (outcome, cached) == ReserveReply(old(store), id, now, ttl)
      ensures store == Reserved(old(store), id, now, ttl)
    {
      EvictExpired(now);
      if id !in store {
        store := store[id := Entry(InProgress, None, now)];
        return New, None;
      }
      return store[id].state, store[id].response;
    }

    method Complete(id: RequestId, response: Response, now: real)
      modifies this
      ensures store == CompletedWith(old(store), id, response, now)
    {
      store := store[id := Entry(Completed, Some(response), now)];
    }

    method Release(id: RequestId)
      modifies this
      ensures store == Released(old(store), id)
    {
      if id in store && store[id].state.InProgress? {
        store := store - {id};
      }
    }
  }

  /* ---------- Lazy eviction refines an age-filtered map ---------- */

  datatype Call = ReserveCall(id: RequestId, now: real)
                | CompleteCall(id: RequestId, now: real, response: Response)
                | ReleaseCall(id: RequestId, now: real)

  function Apply(store: Store, c: Call, ttl: real): Store {
    match c
    case ReserveCall(id, now) => Reserved(store, id, now, ttl)
    case CompleteCall(id, now, r) => CompletedWith(store, id, r, now)
    case ReleaseCall(id, _) => Released(store, id)
  }

  function Replies(store: Store, calls: seq<Call>, ttl: real): seq<(ReserveOutcome, Option<Response>)>
    decreases |calls|
  {
    if calls == [] then []
    else
      (if calls[0].ReserveCall? then [ReserveReply(store, calls[0].id, calls[0].now, ttl)] else [])
      + Replies(Apply(store, calls[0], ttl), calls[1..], ttl)
  }

  /** The reference: before every call, every aged entry is gone; a reserve just looks the id up. */
  function ReferenceReplies(store: Store, calls: seq<Call>, ttl: real): seq<(ReserveOutcome, Option<Response>)>
    decreases |calls|
  {
    if calls == [] then []
    else
      var live := Evicted(store, calls[0].now, ttl);
      var id := calls[0].id;
      match calls[0]
      case ReserveCall(_, now) =>
        if id in live then [(live[id].state, live[id].response)] + ReferenceReplies(live, calls[1..], ttl)
        else [(New, None)] + ReferenceReplies(live[id := Entry(InProgress, None, now)], calls[1..], ttl)
      case CompleteCall(_, now, r) => ReferenceReplies(CompletedWith(live, id, r, now), calls[1..], ttl)
      case ReleaseCall(_, _) => ReferenceReplies(Released(live, id), calls[1..], ttl)
  }

  predicate CallsOrdered(calls: seq<Call>) {
    forall i, j :: 0 <= i < j < |calls| ==> calls[i].now <= calls[j].now
  }

  lemma EvictAgain(store: Store, t1: real, t2: real, ttl: real)
    requires t1 <= t2
    ensures Evicted(Evicted(store, t1, ttl), t2, ttl) == Evicted(store, t2, ttl)
  {
  }

  lemma {:induction false} LazyMatchesReference(lazy: Store, strict: Store, calls: seq<Call>, ttl: real, t: real)
    requires ttl >= 0.0 && CallsOrdered(calls) && forall i :: 0 <= i < |calls| ==> t <= calls[i].now
    requires Evicted(lazy, t, ttl) == Evicted(strict, t, ttl)
    ensures Replies(lazy, calls, ttl) == ReferenceReplies(strict, calls, ttl)
    decreases |calls|
  {
    if calls != [] {
      var c := calls[0];
      EvictAgain(lazy, t, c.now, ttl);
      EvictAgain(strict, t, c.now, ttl);
      var live := Evicted(strict, c.now, ttl);
      assert Evicted(lazy, c.now, ttl) == live;
      var strict' := match c
        case ReserveCall(id, now) => if id in live then live else live[id := Entry(InProgress, None, now)]
        case CompleteCall(id, now, r) => CompletedWith(live, id, r, now)
        case ReleaseCall(id, _) => Released(live, id);
      assert Evicted(Apply(lazy, c, ttl), c.now, ttl) == Evicted(strict', c.now, ttl);
      LazyMatchesReference(Apply(lazy, c, ttl), strict', calls[1..], ttl, c.now);
    }
  }

  /** Evicting only when someone reserves is indistinguishable from evicting all the time. */
  lemma LazyEvictionIsInvisible(calls: seq<Call>, ttl: real)
    requires ttl >= 0.0 && CallsOrdered(calls)
    ensures Replies(map[], calls, ttl) == ReferenceReplies(map[], calls, ttl)
  {
    if calls != [] {
      LazyMatchesReference(map[], map[], calls, ttl, calls[0].now);
    }
  }

  /* ---------- Concurrent handlers ---------- */

  datatype Phase = Working | Answered

  /** A handler that went past the duplicate check, when it reserved, and which attachment job it started. */
  datatype Holder = Holder(id: RequestId, since: real, phase: Phase, job: Option<nat>)

  datatype Completion = Completion(id: RequestId, response: Response, at: real)

  /** An attachment job; it is lost when its handler raises between starting it and completing the request. */
  datatype Job = Job(id: RequestId, at: real, lost: bool)

  datatype System = System(
    now: real, store: Store, holders: map<nat, Holder>,
    completions: seq<Completion>, abandoned: seq<(RequestId, real)>, jobs: seq<Job>)

  /**
    Arrive: reserve at the top of detect_post.  Spawn: start the attachment job, in Case C.  Finish:
    complete, in Case A, B or C.  Raise: the except clause, possibly after Finish.  Leave: a return
    that does not touch the cache, which is either the normal one after Finish or an early error
    return, before any job is started.
   */
  datatype Event = Tick(seconds: real) | Arrive(h: nat, id: RequestId) | Spawn(h: nat)
                 | Finish(h: nat, response: Response) | Raise(h: nat) | Leave(h: nat)

  /** Handlers finish or give up within the TTL of their reservation. */
  predicate Enabled(s: System, e: Event, ttl: real) {
    match e
    case Tick(d) => d >= 0.0 && forall h :: h in s.holders ==> s.now + d <= s.holders[h].since + ttl
    case Arrive(h, _) => h !in s.holders
    case Spawn(h) => h in s.holders && s.holders[h].phase.Working? && s.holders[h].job.None?
    case Finish(h, _) => h in s.holders && s.holders[h].phase.Working?
    case Raise(h) => h in s.holders
    case Leave(h) => h in s.holders && (s.holders[h].phase.Working? ==> s.holders[h].job.None?)
  }

  function WithLost(jobs: seq<Job>, i: nat): seq<Job> {
    if i < |jobs| then jobs[i := jobs[i].(lost := true)] else jobs
  }

  function Next(s: System, e: Event, ttl: real): System
    requires e.Spawn? || e.Finish? || e.Raise? || e.Leave? ==> e.h in s.holders
  {
    match e
    case Tick(d) => s.(now := s.now + d)
    case Arrive(h, id) =>
      var (outcome, cached) := ReserveReply(s.store, id, s.now, ttl);
      var s' := s.(store := Reserved(s.store, id, s.now, ttl));
      if outcome.InProgress? || (outcome.Completed? && cached.Some?) then s'
      else s'.(holders := s.holders[h := Holder(id, s.now, Working, None)])
    case Spawn(h) =>
      s.(holders := s.holders[h := s.holders[h].(job := Some(|s.jobs|))],
         jobs := s.jobs + [Job(s.holders[h].id, s.now, false)])
    case Finish(h, r) =>
      var id := s.holders[h].id;
      s.(store := CompletedWith(s.store, id, r, s.now),
         holders := s.holders[h := s.holders[h].(phase := Answered)],
         completions := s.completions + [Completion(id, r, s.now)])
    case Raise(h) =>
      var g := s.holders[h];
      s.(store := Released(s.store, g.id), holders := s.holders - {h},
         jobs := if g.phase.Working? && g.job.Some? then WithLost(s.jobs, g.job.value) else s.jobs)
    case Leave(h) =>
      var g := s.holders[h];
      s.(holders := s.holders - {h},
         abandoned := if g.phase.Working? then s.abandoned + [(g.id, g.since)] else s.abandoned)
  }

  function Start(now: real): System { System(now, map[], map[], [], [], []) }

  predicate Legal(s: System, es: seq<Event>, ttl: real)
    decreases |es|
  {
    es == [] || (Enabled(s, es[0], ttl) && Legal(Next(s, es[0], ttl), es[1..], ttl))
  }

  function Run(s: System, es: seq<Event>, ttl: real): System
    requires Legal(s, es, ttl)
    decreases |es|
  {
    if es == [] then s else Run(Next(s, es[0], ttl), es[1..], ttl)
  }

  /** At most one handler holds a request id. */
  predicate ExclusiveHolders(s: System) {
    forall g, h :: g in s.holders && h in s.holders && s.holders[g].id == s.holders[h].id ==> g == h
  }

  /** NEW is never stored, and exactly the completed entries carry a response. */
  predicate WellFormed(store: Store) {
    forall k :: k in store ==> !store[k].state.New? && (store[k].state.Completed? <==> store[k].response.Some?)
  }

  /** A completion is answered from the cache for a whole TTL. */
  predicate CompletionsKept(s: System, ttl: real) {
    forall i :: 0 <= i < |s.completions| && s.now <= s.completions[i].at + ttl ==>
      s.completions[i].id in s.store
      && s.store[s.completions[i].id] == Entry(Completed, Some(s.completions[i].response), s.completions[i].at)
  }

  /** A request that ended in an early error return stays in progress for a whole TTL. */
  predicate AbandonedKept(s: System, ttl: real) {
    forall i :: 0 <= i < |s.abandoned| && s.now <= s.abandoned[i].1 + ttl ==>
      s.abandoned[i].0 in s.store && s.store[s.abandoned[i].0] == Entry(InProgress, None, s.abandoned[i].1)
  }

  predicate HoldersBacked(s: System, ttl: real) {
    forall h :: h in s.holders ==>
      var g := s.holders[h];
      && g.since <= s.now <= g.since + ttl
      && g.id in s.store
      && (g.phase.Working? ==>
          && s.store[g.id] == Entry(InProgress, None, g.since)
          && forall i :: 0 <= i < |s.abandoned| && s.abandoned[i].0 == g.id ==> s.abandoned[i].1 + ttl < s.now)
      && (g.phase.Answered? ==> s.store[g.id].state.Completed? && g.since <= s.store[g.id].createdAt)
  }

  /** A working handler, a completion or an early error return that accounts for an entry of that age. */
  predicate Backed(s: System, id: RequestId, createdAt: real) {
    || (exists h :: h in s.holders && s.holders[h].id == id && s.holders[h].phase.Working?)
    || (exists i :: 0 <= i < |s.completions| && s.completions[i].id == id && s.completions[i].at == createdAt)
    || (exists i :: 0 <= i < |s.abandoned| && s.abandoned[i] == (id, createdAt))
  }

  predicate EntriesBacked(s: System, ttl: real) {
    forall k :: k in s.store && !Stale(s.store[k], s.now, ttl) ==> Backed(s, k, s.store[k].createdAt)
  }

  predicate CoreInv(s: System, ttl: real) {
    && ttl >= 0.0 && ExclusiveHolders(s) && WellFormed(s.store) && CompletionsKept(s, ttl) && AbandonedKept(s, ttl)
    && HoldersBacked(s, ttl)
    && (forall i :: 0 <= i < |s.completions| ==> s.completions[i].at <= s.now)
    && (forall i :: 0 <= i < |s.abandoned| ==> s.abandoned[i].1 <= s.now)
  }

  /** A working handler has started job i. */
  predicate Holds(s: System, h: nat, i: nat) {
    h in s.holders && s.holders[h].phase.Working? && s.holders[h].job == Some(i)
  }

  /** Of two jobs for one request id, at most a TTL apart, the first was lost. */
  predicate JobsOnce(jobs: seq<Job>, ttl: real) {
    forall i, j :: 0 <= i < j < |jobs| && jobs[i].id == jobs[j].id && jobs[j].at <= jobs[i].at + ttl ==> jobs[i].lost
  }

  /** A handler's job is for its request, started since it reserved, and not lost while it works. */
  predicate JobsOwned(s: System) {
    forall h :: h in s.holders && s.holders[h].job.Some? ==>
      var g := s.holders[h];
      && g.job.value < |s.jobs| && s.jobs[g.job.value].id == g.id && g.since <= s.jobs[g.job.value].at
      && (g.phase.Working? ==> !s.jobs[g.job.value].lost)
  }

  /** A young job that was not lost still has its handler, or the request is completed. */
  ghost predicate JobsKept(s: System, ttl: real) {
    && JobsOwned(s) && JobsOnce(s.jobs, ttl)
    && (forall i :: 0 <= i < |s.jobs| ==> s.jobs[i].at <= s.now)
    && (forall i :: 0 <= i < |s.jobs| && !s.jobs[i].lost && s.now <= s.jobs[i].at + ttl ==> JobKept(s, i))
  }

  ghost predicate JobKept(s: System, i: nat)
    requires i < |s.jobs|
  {
    || (exists h :: Holds(s, h, i))
    || (var id := s.jobs[i].id; id in s.store && s.store[id].state.Completed? && s.jobs[i].at <= s.store[id].createdAt)
  }

  ghost predicate Inv(s: System, ttl: real) { CoreInv(s, ttl) && EntriesBacked(s, ttl) && JobsKept(s, ttl) }

  lemma TickKeepsCore(s: System, d: real, ttl: real)
    requires CoreInv(s, ttl) && Enabled(s, Tick(d), ttl)
    ensures CoreInv(Next(s, Tick(d), ttl), ttl)
  {
  }

  // Whatever still matters is too young to be evicted.
  lemma EvictKeepsCore(s: System, ttl: real)
    requires CoreInv(s, ttl)
    ensures CoreInv(s.(store := Evicted(s.store, s.now, ttl)), ttl)
    ensures WellFormed(Evicted(s.store, s.now, ttl))
  {
  }

  lemma NewHolderKeepsCore(s: System, h: nat, id: RequestId, ttl: real)
    requires CoreInv(s, ttl) && h !in s.holders && id !in s.store
    ensures CoreInv(s.(store := s.store[id := Entry(InProgress, None, s.now)],
                       holders := s.holders[h := Holder(id, s.now, Working, None)]), ttl)
  {
  }

  lemma ArriveKeepsCore(s: System, h: nat, id: RequestId, ttl: real)
    requires CoreInv(s, ttl) && Enabled(s, Arrive(h, id), ttl)
    ensures CoreInv(Next(s, Arrive(h, id), ttl), ttl)
  {
    hide CoreInv, Evicted;
    var live := Evicted(s.store, s.now, ttl);
    var s' := s.(store := live);
    EvictKeepsCore(s, ttl);
    if id !in live {
      NewHolderKeepsCore(s', h, id, ttl);
    }
  }

  lemma FinishKeepsCore(s: System, h: nat, r: Response, ttl: real)
    requires CoreInv(s, ttl) && Enabled(s, Finish(h, r), ttl)
    ensures CoreInv(Next(s, Finish(h, r), ttl), ttl)
  {
  }

  lemma ExitKeepsCore(s: System, e: Event, ttl: real)
    requires CoreInv(s, ttl) && (e.Raise? || e.Leave?) && Enabled(s, e, ttl)
    ensures CoreInv(Next(s, e, ttl), ttl)
  {
  }

  lemma SpawnKeepsCore(s: System, h: nat, ttl: real)
    requires CoreInv(s, ttl) && Enabled(s, Spawn(h), ttl)
    ensures CoreInv(Next(s, Spawn(h), ttl), ttl)
  {
  }

  // An id that is released had no other handler, and the entry of any other id keeps its reason.
  lemma StepKeepsBacking(s: System, e: Event, ttl: real)
    requires CoreInv(s, ttl) && EntriesBacked(s, ttl) && Enabled(s, e, ttl)
    ensures EntriesBacked(Next(s, e, ttl), ttl)
  {
    var s' := Next(s, e, ttl);
    forall k | k in s'.store && !Stale(s'.store[k], s'.now, ttl)
      ensures Backed(s', k, s'.store[k].createdAt)
    {
      if k in s.store && s'.store[k] == s.store[k] {
        assert Backed(s, k, s.store[k].createdAt);
        BackingStays(s, e, ttl, k);
      } else {
        NewEntryBacked(s, e, ttl, k);
      }
    }
  }

  lemma BackingStays(s: System, e: Event, ttl: real, k: RequestId)
    requires CoreInv(s, ttl) && Enabled(s, e, ttl) && k in s.store && Backed(s, k, s.store[k].createdAt)
    requires var s' := Next(s, e, ttl);
             k in s'.store && s'.store[k] == s.store[k] && !Stale(s.store[k], s'.now, ttl)
    ensures Backed(Next(s, e, ttl), k, s.store[k].createdAt)
  {
    var s', at := Next(s, e, ttl), s.store[k].createdAt;
    if i :| 0 <= i < |s.completions| && s.completions[i].id == k && s.completions[i].at == at {
      assert s'.completions[i] == s.completions[i];
    } else if i :| 0 <= i < |s.abandoned| && s.abandoned[i] == (k, at) {
      assert s'.abandoned[i] == s.abandoned[i];
    } else {
      var h :| h in s.holders && s.holders[h].id == k && s.holders[h].phase.Working?;
      if e.Leave? && e.h == h {
        assert s'.abandoned[|s.abandoned|] == (k, at);
      } else {
        assert h in s'.holders && s'.holders[h].id == k && s'.holders[h].phase.Working?;
      }
    }
  }

  lemma NewEntryBacked(s: System, e: Event, ttl: real, k: RequestId)
    requires CoreInv(s, ttl) && Enabled(s, e, ttl)
    requires var s' := Next(s, e, ttl);
             k in s'.store && !(k in s.store && s'.store[k] == s.store[k])
    ensures Backed(Next(s, e, ttl), k, Next(s, e, ttl).store[k].createdAt)
  {
    var s' := Next(s, e, ttl);
    if e.Finish? {
      assert s'.completions[|s.completions|] == Completion(k, e.response, s.now);
    } else {
      assert e.Arrive? && e.h in s'.holders;
    }
  }

  lemma StepKeepsCore(s: System, e: Event, ttl: real)
    requires CoreInv(s, ttl) && Enabled(s, e, ttl)
    ensures CoreInv(Next(s, e, ttl), ttl)
  {
    hide CoreInv;
    match e
    case Tick(d) => TickKeepsCore(s, d, ttl);
    case Arrive(h, id) => ArriveKeepsCore(s, h, id, ttl);
    case Spawn(h) => SpawnKeepsCore(s, h, ttl);
    case Finish(h, r) => FinishKeepsCore(s, h, r, ttl);
    case Raise(_) => ExitKeepsCore(s, e, ttl);
    case Leave(_) => ExitKeepsCore(s, e, ttl);
  }

  // Only the handler of the id, with no job yet, can start one: an earlier young job was lost.
  lemma EarlierJobLost(s: System, h: nat, ttl: real, i: nat)
    requires CoreInv(s, ttl) && JobsKept(s, ttl) && Enabled(s, Spawn(h), ttl)
    requires i < |s.jobs| && s.jobs[i].id == s.holders[h].id && s.now <= s.jobs[i].at + ttl
    ensures s.jobs[i].lost
  {
    assert s.jobs[i].lost || JobKept(s, i);
  }

  lemma SpawnKeepsJobs(s: System, h: nat, ttl: real)
    requires CoreInv(s, ttl) && JobsKept(s, ttl) && Enabled(s, Spawn(h), ttl)
    ensures JobsKept(Next(s, Spawn(h), ttl), ttl)
  {
    var s' := Next(s, Spawn(h), ttl);
    forall i | 0 <= i < |s.jobs| && s.jobs[i].id == s.holders[h].id && s.now <= s.jobs[i].at + ttl
      ensures s.jobs[i].lost
    {
      EarlierJobLost(s, h, ttl, i);
    }
    hide CoreInv;
    forall i | 0 <= i < |s'.jobs| && !s'.jobs[i].lost && s'.now <= s'.jobs[i].at + ttl
      ensures JobKept(s', i)
    {
      if i == |s.jobs| {
        assert Holds(s', h, i);
      } else {
        assert JobKept(s, i);
        if g :| Holds(s, g, i) {
          assert Holds(s', g, i);
        }
      }
    }
  }

  lemma JobStaysKept(s: System, e: Event, ttl: real, i: nat)
    requires CoreInv(s, ttl) && JobsKept(s, ttl) && Enabled(s, e, ttl) && !e.Spawn? && i < |s.jobs|
    requires var s' := Next(s, e, ttl);
             |s'.jobs| == |s.jobs| && !s'.jobs[i].lost && s'.now <= s'.jobs[i].at + ttl
    ensures JobKept(Next(s, e, ttl), i)
  {
    var s' := Next(s, e, ttl);
    assert !s.jobs[i].lost && s.jobs[i].at == s'.jobs[i].at && s.jobs[i].id == s'.jobs[i].id;
    assert JobKept(s, i);
    if h :| Holds(s, h, i) {
      if e.Finish? && e.h == h {
        assert s'.store[s.jobs[i].id].createdAt == s.now;
      } else {
        assert Holds(s', h, i);
      }
    }
  }

  lemma StepKeepsOwned(s: System, e: Event, ttl: real)
    requires CoreInv(s, ttl) && JobsOwned(s) && Enabled(s, e, ttl) && !e.Spawn?
    ensures JobsOwned(Next(s, e, ttl))
  {
    var s' := Next(s, e, ttl);
    hide Reserved, ReserveReply, CompletedWith, Released;
    forall h | h in s'.holders && s'.holders[h].job.Some?
      ensures h in s.holders && s'.holders[h].job == s.holders[h].job && s'.holders[h].id == s.holders[h].id
    {
    }
  }

  lemma JobsOnlyAge(s: System, e: Event, ttl: real)
    requires Enabled(s, e, ttl) && !e.Spawn?
    ensures var s' := Next(s, e, ttl);
            && s.now <= s'.now && |s'.jobs| == |s.jobs|
            && forall i :: 0 <= i < |s.jobs| ==>
                 s'.jobs[i].id == s.jobs[i].id && s'.jobs[i].at == s.jobs[i].at && (s.jobs[i].lost ==> s'.jobs[i].lost)
  {
  }

  lemma StepKeepsJobs(s: System, e: Event, ttl: real)
    requires CoreInv(s, ttl) && JobsKept(s, ttl) && Enabled(s, e, ttl)
    ensures JobsKept(Next(s, e, ttl), ttl)
  {
    if e.Spawn? {
      SpawnKeepsJobs(s, e.h, ttl);
    } else {
      var s' := Next(s, e, ttl);
      JobsOnlyAge(s, e, ttl);
      StepKeepsOwned(s, e, ttl);
      hide CoreInv, Next, Enabled, JobsOwned, JobKept;
      forall i | 0 <= i < |s'.jobs| && !s'.jobs[i].lost && s'.now <= s'.jobs[i].at + ttl
        ensures JobKept(s', i)
      {
        JobStaysKept(s, e, ttl, i);
      }
    }
  }

  lemma StepKeepsInv(s: System, e: Event, ttl: real)
    requires Inv(s, ttl) && Enabled(s, e, ttl)
    ensures Inv(Next(s, e, ttl), ttl)
  {
    hide CoreInv, EntriesBacked, JobsKept, Next, Enabled;
    StepKeepsCore(s, e, ttl);
    StepKeepsBacking(s, e, ttl);
    StepKeepsJobs(s, e, ttl);
  }

  lemma {:induction false} RunKeepsInv(s: System, es: seq<Event>, ttl: real)
    requires Inv(s, ttl) && Legal(s, es, ttl)
    ensures Inv(Run(s, es, ttl), ttl)
    decreases |es|
  {
    hide Inv, Next;
    if es != [] {
      StepKeepsInv(s, es[0], ttl);
      RunKeepsInv(Next(s, es[0], ttl), es[1..], ttl);
    }
  }

  /**
    One holder per request id at most; a request completed no longer than a TTL ago is answered with
    that very response; one that ended in an early error return is answered "in progress" for as
    long, and so is one whose handler is at work; in all other cases, and only then, the request is
    new.  A handler that raises before completing frees its id, one that raises after changes nothing.
   */
  ghost predicate Promises(s: System, ttl: real) {
    && ExclusiveHolders(s)
    && WellFormed(s.store)
    && (forall c :: c in s.completions && s.now <= c.at + ttl ==>
          ReserveReply(s.store, c.id, s.now, ttl) == (Completed, Some(c.response)))
    && (forall a :: a in s.abandoned && s.now <= a.1 + ttl ==>
          ReserveReply(s.store, a.0, s.now, ttl) == (InProgress, None))
    && (forall h :: h in s.holders && s.holders[h].phase.Answered? ==> Next(s, Raise(h), ttl).store == s.store)
    && (forall h :: h in s.holders && s.holders[h].phase.Working? ==>
          && ReserveReply(s.store, s.holders[h].id, s.now, ttl) == (InProgress, None)
          && ReserveReply(Next(s, Raise(h), ttl).store, s.holders[h].id, s.now, ttl) == (New, None))
    && (forall id :: ReserveReply(s.store, id, s.now, ttl).0 == New <==> Unaccounted(s, id, ttl))
  }

  /** Nobody works on the id, and nobody completed it or left it unfinished within a TTL. */
  predicate Unaccounted(s: System, id: RequestId, ttl: real) {
    && (forall h :: h in s.holders && s.holders[h].phase.Working? ==> s.holders[h].id != id)
    && (forall i :: 0 <= i < |s.completions| && s.completions[i].id == id ==> s.completions[i].at + ttl < s.now)
    && (forall i :: 0 <= i < |s.abandoned| && s.abandoned[i].0 == id ==> s.abandoned[i].1 + ttl < s.now)
  }

  /** Every run of concurrent handlers keeps these promises. */
  lemma HandlersAreIdempotent(now: real, es: seq<Event>, ttl: real)
    requires ttl >= 0.0 && Legal(Start(now), es, ttl)
    ensures Promises(Run(Start(now), es, ttl), ttl)
  {
    hide Inv, Promises, Legal, Run;
    assert Inv(Start(now), ttl) by {
      StartFits(now, ttl);
    }
    RunKeepsInv(Start(now), es, ttl);
    InvKeepsPromises(Run(Start(now), es, ttl), ttl);
  }

  lemma StartFits(now: real, ttl: real)
    requires ttl >= 0.0
    ensures Inv(Start(now), ttl)
  {
  }

  lemma InvKeepsPromises(s: System, ttl: real)
    requires Inv(s, ttl)
    ensures Promises(s, ttl)
  {
    hide EntriesBacked, JobsKept, Unaccounted, ReserveReply, Next;
    forall c | c in s.completions && s.now <= c.at + ttl
      ensures ReserveReply(s.store, c.id, s.now, ttl) == (Completed, Some(c.response))
    {
      CompletionAnswered(s, c, ttl);
    }
    forall a | a in s.abandoned && s.now <= a.1 + ttl
      ensures ReserveReply(s.store, a.0, s.now, ttl) == (InProgress, None)
    {
      AbandonedAnswered(s, a, ttl);
    }
    forall h | h in s.holders && s.holders[h].phase.Working?
      ensures ReserveReply(s.store, s.holders[h].id, s.now, ttl) == (InProgress, None)
      ensures ReserveReply(Next(s, Raise(h), ttl).store, s.holders[h].id, s.now, ttl) == (New, None)
    {
      WorkerAnswered(s, h, ttl);
    }
    forall h | h in s.holders && s.holders[h].phase.Answered?
      ensures Next(s, Raise(h), ttl).store == s.store
    {
      AnsweredRaiseHarmless(s, h, ttl);
    }
    forall id
      ensures ReserveReply(s.store, id, s.now, ttl).0 == New <==> Unaccounted(s, id, ttl)
    {
      NewIffUnaccounted(s, id, ttl);
    }
  }

  lemma CompletionAnswered(s: System, c: Completion, ttl: real)
    requires CoreInv(s, ttl) && c in s.completions && s.now <= c.at + ttl
    ensures ReserveReply(s.store, c.id, s.now, ttl) == (Completed, Some(c.response))
  {
    var i :| 0 <= i < |s.completions| && s.completions[i] == c;
  }

  lemma AbandonedAnswered(s: System, a: (RequestId, real), ttl: real)
    requires CoreInv(s, ttl) && a in s.abandoned && s.now <= a.1 + ttl
    ensures ReserveReply(s.store, a.0, s.now, ttl) == (InProgress, None)
  {
    var i :| 0 <= i < |s.abandoned| && s.abandoned[i] == a;
  }

  lemma WorkerAnswered(s: System, h: nat, ttl: real)
    requires CoreInv(s, ttl) && h in s.holders && s.holders[h].phase.Working?
    ensures ReserveReply(s.store, s.holders[h].id, s.now, ttl) == (InProgress, None)
    ensures ReserveReply(Next(s, Raise(h), ttl).store, s.holders[h].id, s.now, ttl) == (New, None)
  {
  }

  lemma AnsweredRaiseHarmless(s: System, h: nat, ttl: real)
    requires CoreInv(s, ttl) && h in s.holders && s.holders[h].phase.Answered?
    ensures Next(s, Raise(h), ttl).store == s.store
  {
  }

  lemma NewIffUnaccounted(s: System, id: RequestId, ttl: real)
    requires Inv(s, ttl)
    ensures ReserveReply(s.store, id, s.now, ttl).0 == New <==> Unaccounted(s, id, ttl)
  {
    if id in s.store && !Stale(s.store[id], s.now, ttl) {
      assert Backed(s, id, s.store[id].createdAt);
    }
  }

  /** A handler that outlives the TTL loses its id: the next request for it is taken as new. */
  lemma OverstayingLosesTheId(s: System, h: nat, ttl: real, later: real)
    requires Inv(s, ttl) && h in s.holders && s.holders[h].phase.Working?
    requires s.now <= later
    ensures ReserveReply(s.store, s.holders[h].id, later, ttl).0 == New <==> later > s.holders[h].since + ttl
  {
  }

  /* ---------- Attachment jobs ---------- */

  /** A second job for the same request id was started within a TTL of job i. */
  predicate Repeated(jobs: seq<Job>, i: nat, ttl: real)
    requires i < |jobs|
  {
    exists j :: i < j < |jobs| && jobs[j].id == jobs[i].id && jobs[j].at <= jobs[i].at + ttl
  }

  /** At most one job per request id within a TTL, unless a handler raised between starting and completing. */
  lemma OneJobPerRequest(now: real, es: seq<Event>, ttl: real)
    requires ttl >= 0.0 && Legal(Start(now), es, ttl)
    ensures JobsOnce(Run(Start(now), es, ttl).jobs, ttl)
  {
    StartFits(now, ttl);
    RunKeepsInv(Start(now), es, ttl);
  }

  /** Job i is not lost and no handler is left that could lose it. */
  ghost predicate JobSettled(s: System, i: nat) {
    i < |s.jobs| && !s.jobs[i].lost && forall h :: !Holds(s, h, i)
  }

  lemma JobStaysSettled(s: System, e: Event, ttl: real, i: nat)
    requires Enabled(s, e, ttl) && JobSettled(s, i)
    ensures JobSettled(Next(s, e, ttl), i)
  {
    var s' := Next(s, e, ttl);
    forall h
      ensures !Holds(s', h, i)
    {
      assert !Holds(s, h, i);
    }
    if e.Raise? {
      assert !Holds(s, e.h, i);
    }
  }

  lemma {:induction false} RunStaysSettled(s: System, es: seq<Event>, ttl: real, i: nat)
    requires Legal(s, es, ttl) && JobSettled(s, i)
    ensures JobSettled(Run(s, es, ttl), i)
    decreases |es|
  {
    hide JobSettled, Next;
    if es != [] {
      JobStaysSettled(s, es[0], ttl, i);
      RunStaysSettled(Next(s, es[0], ttl), es[1..], ttl, i);
    }
  }

  // A retry right after the exception is new and starts a job of its own.
  lemma LostJobRepeats(s: System, h: nat, ttl: real, i: nat)
    requires Inv(s, ttl) && Holds(s, h, i)
    ensures var s' := Next(s, Raise(h), ttl);
            var es := [Arrive(h, s.holders[h].id), Spawn(h)];
            Legal(s', es, ttl) && i < |Run(s', es, ttl).jobs| && Repeated(Run(s', es, ttl).jobs, i, ttl)
  {
    var id, s1 := s.holders[h].id, Next(s, Raise(h), ttl);
    WorkerAnswered(s, h, ttl);
    assert i < |s.jobs| && s.jobs[i].id == id && s.now <= s.jobs[i].at + ttl;
    assert |s1.jobs| == |s.jobs| && s1.jobs[i] == s.jobs[i].(lost := true) && h !in s1.holders;
    hide Inv, CoreInv, JobsKept, EntriesBacked, ReserveReply, Reserved;
    var es := [Arrive(h, id), Spawn(h)];
    var s2 := Next(s1, es[0], ttl);
    assert h in s2.holders && s2.holders[h] == Holder(id, s.now, Working, None);
    var s3 := Next(s2, es[1], ttl);
    assert es[1..] == [Spawn(h)] && es[1..][1..] == [];
    assert Legal(s2, es[1..], ttl) && Run(s2, es[1..], ttl) == s3;
    assert s3.jobs[|s.jobs|] == Job(id, s.now, false);
  }

  /**
    Once a handler has started its job, a second job for the same request within a TTL can still come
    exactly when the handler raises instead of completing.
   */
  lemma JobRepeatsIff(s: System, h: nat, e: Event, ttl: real, i: nat)
    requires Inv(s, ttl) && Holds(s, h, i)
    requires (e.Finish? || e.Raise?) && e.h == h
    ensures (exists es :: Legal(Next(s, e, ttl), es, ttl) && i < |Run(Next(s, e, ttl), es, ttl).jobs|
                          && Repeated(Run(Next(s, e, ttl), es, ttl).jobs, i, ttl))
            <==> e.Raise?
  {
    var s' := Next(s, e, ttl);
    if e.Raise? {
      LostJobRepeats(s, h, ttl, i);
      assert Legal(s', [Arrive(h, s.holders[h].id), Spawn(h)], ttl);
    } else {
      StepKeepsInv(s, e, ttl);
      assert JobSettled(s', i) by {
        FinishSettles(s, h, e.response, ttl, i);
      }
      forall es | Legal(s', es, ttl)
        ensures i < |Run(s', es, ttl).jobs| && !Repeated(Run(s', es, ttl).jobs, i, ttl)
      {
        RunStaysSettled(s', es, ttl, i);
        RunKeepsInv(s', es, ttl);
      }
    }
  }

  lemma FinishSettles(s: System, h: nat, r: Response, ttl: real, i: nat)
    requires Inv(s, ttl) && Holds(s, h, i)
    ensures JobSettled(Next(s, Finish(h, r), ttl), i)
  {
  }
}
