/**
  The double-checked reload of PolicyCache in app/core/policy_engine.py, as cooperative asyncio
  steps: a task runs without interruption until it awaits the lock or the database.
 */
module PolicyCache {
  import opened Wrappers
  import opened PolicyEngine

  type Rows = seq<Policy>

  /** The fields of the cache. */
  datatype Cache = Cache(policies: Rows, pending: bool, reloads: nat)

  const FRESH := Cache([], true, 0)

  function Rebuilt(c: Cache, rows: Rows): Cache { Cache(rows, false, c.reloads + 1) }

  /** The uninterrupted sections of get and request_reload. */
  class PolicyCache {
    var policies: Rows
    var reloadPending: bool
    var reloadCount: nat

    ghost function State(): Cache
      reads this
    {
      Cache(policies, reloadPending, reloadCount)
    }

    constructor ()
      ensures State() == FRESH
    {
      policies, reloadPending, reloadCount := [], true, 0;
    }

    method RequestReload()
      modifies this
      ensures State() == old(State()).(pending := true)
    {
      reloadPending := true;
    }

    /** The check made before and again under the lock: the cached rows, or None to reload. */
    method Peek() returns (rows: Option<Rows>)
      ensures rows == if State().pending then None else Some(State().policies)
    {
      rows := if !reloadPending then Some(policies) else None;
    }

    /** What happens, still under the lock, once the database has answered. */
    method Install(rows: Rows) returns (answer: Rows)
      modifies this
      ensures State() == Rebuilt(old(State()), rows)
      ensures answer == State().policies
    {
      policies := rows;
      reloadPending := false;
      reloadCount := reloadCount + 1;
      answer := policies;
    }
  }

  /* ---------- Concurrent tasks ---------- */

  /** A task that waits for the lock, or reads the database; the read began after `seen` reload requests. */
  datatype Phase = Waiting | Loading(seen: nat)

  /** A successful rebuild, and how many reload requests there had been when its read began. */
  datatype Build = Build(rows: Rows, seen: nat)

  /** A list returned to a caller, and how many rebuilds had succeeded by then. */
  datatype Answer = Answer(task: nat, rows: Rows, rebuilds: nat)

  datatype System = System(
    cache: Cache, lock: Option<nat>, tasks: map<nat, Phase>,
    requests: nat, builds: seq<Build>, answers: seq<Answer>)

  datatype Event =
    | RequestReload
    | Get(task: nat)
    | Acquire(task: nat)
    | Loaded(task: nat, rows: Rows)
    | LoadFailed(task: nat)
    | Abandon(task: nat)

  predicate Enabled(s: System, e: Event) {
    match e
    case RequestReload => true
    case Get(t) => t !in s.tasks
    case Acquire(t) => t in s.tasks && s.tasks[t].Waiting? && s.lock.None?
    case Loaded(t, _) => t in s.tasks && s.tasks[t].Loading?
    case LoadFailed(t) => t in s.tasks && s.tasks[t].Loading?
    case Abandon(t) => t in s.tasks && s.tasks[t].Waiting?
  }

  function Answered(s: System, t: nat): System {
    s.(tasks := s.tasks - {t}, answers := s.answers + [Answer(t, s.cache.policies, |s.builds|)])
  }

  function Next(s: System, e: Event): System
    requires Enabled(s, e)
  {
    match e
    case RequestReload => s.(cache := s.cache.(pending := true), requests := s.requests + 1)
    case Get(t) => if s.cache.pending then s.(tasks := s.tasks[t := Waiting]) else Answered(s, t)
    case Acquire(t) =>
      if s.cache.pending then s.(lock := Some(t), tasks := s.tasks[t := Loading(s.requests)]) else Answered(s, t)
    case Loaded(t, rows) =>
      var builds := s.builds + [Build(rows, s.tasks[t].seen)];
      Answered(s.(cache := Rebuilt(s.cache, rows), builds := builds, lock := None), t)
    case LoadFailed(t) => s.(tasks := s.tasks - {t}, lock := None)
    case Abandon(t) => s.(tasks := s.tasks - {t})
  }

  const IDLE := System(FRESH, None, map[], 0, [], [])

  predicate Legal(s: System, es: seq<Event>)
    decreases |es|
  {
    es == [] || (Enabled(s, es[0]) && Legal(Next(s, es[0]), es[1..]))
  }

  function Run(s: System, es: seq<Event>): System
    requires Legal(s, es)
    decreases |es|
  {
    if es == [] then s else Run(Next(s, es[0]), es[1..])
  }

  /** At most one rebuild is in flight, by the task that holds the lock. */
  predicate OneRebuild(s: System) {
    && (forall t :: t in s.tasks && s.tasks[t].Loading? ==> s.lock == Some(t))
    && (s.lock.Some? ==> s.lock.value in s.tasks && s.tasks[s.lock.value].Loading?)
  }

  /** Every list handed out was that of the latest rebuild there had been. */
  predicate AnswersLatest(s: System) {
    forall i :: 0 <= i < |s.answers| ==>
      0 < s.answers[i].rebuilds <= |s.builds| && s.answers[i].rows == s.builds[s.answers[i].rebuilds - 1].rows
  }

  predicate Inv(s: System) {
    && OneRebuild(s) && AnswersLatest(s)
    && (s.lock.Some? ==> s.cache.pending)
    && |s.builds| + (if s.cache.pending then 1 else 0) <= 1 + s.requests
    && s.cache.reloads == |s.builds|
    && (!s.cache.pending ==> s.builds != [])
    && (s.builds != [] ==> s.cache.policies == s.builds[|s.builds| - 1].rows)
    && (forall t :: t in s.tasks && s.tasks[t].Loading? ==> s.tasks[t].seen <= s.requests)
  }

  lemma StepKeepsInv(s: System, e: Event)
    requires Inv(s) && Enabled(s, e)
    ensures Inv(Next(s, e))
  {
  }

  lemma {:induction false} RunKeepsInv(s: System, es: seq<Event>)
    requires Inv(s) && Legal(s, es)
    ensures Inv(Run(s, es))
    decreases |es|
  {
    hide Inv, Next;
    if es != [] {
      StepKeepsInv(s, es[0]);
      RunKeepsInv(Next(s, es[0]), es[1..]);
    }
  }

  /** However getters, reload requests, failing reads and cancellations interleave. */
  lemma ReloadIsDisciplined(es: seq<Event>)
    requires Legal(IDLE, es)
    ensures var s := Run(IDLE, es);
            && OneRebuild(s)
            && s.cache.reloads == |s.builds| <= 1 + s.requests
            && AnswersLatest(s)
            && (!s.cache.pending ==> s.builds != [] && s.cache.policies == s.builds[|s.builds| - 1].rows)
  {
    RunKeepsInv(IDLE, es);
  }

  /* ---------- The flag, read off the events ---------- */

  /** Some load succeeded, and no reload was requested after it. */
  predicate UpToDate(es: seq<Event>) {
    exists i :: 0 <= i < |es| && es[i].Loaded? && forall j :: i < j < |es| ==> !es[j].RequestReload?
  }

  /** The lists loaded, in order. */
  function LoadedRows(es: seq<Event>): seq<Rows> {
    if es == [] then [] else (if es[0].Loaded? then [es[0].rows] else []) + LoadedRows(es[1..])
  }

  function RequestCount(es: seq<Event>): nat {
    if es == [] then 0 else (if es[0].RequestReload? then 1 else 0) + RequestCount(es[1..])
  }

  function RowsOf(builds: seq<Build>): (rows: seq<Rows>)
    ensures |rows| == |builds| && forall i :: 0 <= i < |rows| ==> rows[i] == builds[i].rows
  {
    seq(|builds|, i requires 0 <= i < |builds| => builds[i].rows)
  }

  lemma StepMovesFlag(s: System, e: Event)
    requires Enabled(s, e)
    ensures Next(s, e).cache.pending == (e.RequestReload? || (s.cache.pending && !e.Loaded?))
  {
  }

  lemma {:induction false} FlagFrom(s: System, es: seq<Event>)
    requires Legal(s, es)
    ensures !Run(s, es).cache.pending <==>
              UpToDate(es) || (!s.cache.pending && forall j :: 0 <= j < |es| ==> !es[j].RequestReload?)
    decreases |es|
  {
    hide Next;
    if es != [] {
      var rest := es[1..];
      StepMovesFlag(s, es[0]);
      FlagFrom(Next(s, es[0]), rest);
      if i :| 0 <= i < |rest| && rest[i].Loaded? && forall j :: i < j < |rest| ==> !rest[j].RequestReload? {
        assert es[i + 1].Loaded? && forall j :: i + 1 < j < |es| ==> es[j] == rest[j - 1];
      }
      if i :| 0 <= i < |es| && es[i].Loaded? && forall j :: i < j < |es| ==> !es[j].RequestReload? {
        assert forall j :: 0 <= j < |rest| ==> rest[j] == es[j + 1];
        assert i > 0 ==> rest[i - 1].Loaded?;
      }
      assert (forall j :: 0 <= j < |es| ==> !es[j].RequestReload?)
        <==> !es[0].RequestReload? && forall j :: 0 <= j < |rest| ==> !rest[j].RequestReload? by {
        assert forall j :: 0 <= j < |rest| ==> rest[j] == es[j + 1];
        assert forall j :: 0 < j < |es| ==> es[j] == rest[j - 1];
      }
    }
  }

  lemma {:induction false} LogsFrom(s: System, es: seq<Event>)
    requires Legal(s, es)
    ensures RowsOf(Run(s, es).builds) == RowsOf(s.builds) + LoadedRows(es)
    ensures Run(s, es).requests == s.requests + RequestCount(es)
    decreases |es|
  {
    if es != [] {
      LogsFrom(Next(s, es[0]), es[1..]);
    }
  }

  /**
    In every run the flag is clear exactly when some load succeeded and no reload was requested after
    it: a read that fails or is cancelled never uses a request up.  The rebuilds are the loads that
    succeeded, in order, and every request counts.
   */
  lemma FlagIsExact(es: seq<Event>)
    requires Legal(IDLE, es)
    ensures var s := Run(IDLE, es);
            && (!s.cache.pending <==> UpToDate(es))
            && RowsOf(s.builds) == LoadedRows(es) && s.requests == RequestCount(es)
  {
    FlagFrom(IDLE, es);
    LogsFrom(IDLE, es);
  }

  /* ---------- A request takes effect ---------- */

  /** Every answer from the k-th on comes from a read begun after n requests or more. */
  predicate AnswersFresh(s: System, k: nat, n: nat) {
    forall i :: k <= i < |s.answers| ==>
      0 < s.answers[i].rebuilds <= |s.builds| && n <= s.builds[s.answers[i].rebuilds - 1].seen
  }

  predicate FreshSince(s: System, k: nat, n: nat) {
    && n <= s.requests && AnswersFresh(s, k, n)
    && (forall t :: t in s.tasks && s.tasks[t].Loading? ==> n <= s.tasks[t].seen)
    && (s.cache.pending || (s.builds != [] && n <= s.builds[|s.builds| - 1].seen))
  }

  lemma StepStaysFresh(s: System, e: Event, k: nat, n: nat)
    requires FreshSince(s, k, n) && Enabled(s, e)
    ensures FreshSince(Next(s, e), k, n)
  {
  }

  lemma {:induction false} RunStaysFresh(s: System, es: seq<Event>, k: nat, n: nat)
    requires FreshSince(s, k, n) && Legal(s, es)
    ensures FreshSince(Run(s, es), k, n)
    decreases |es|
  {
    hide FreshSince, Next;
    if es != [] {
      StepStaysFresh(s, es[0], k, n);
      RunStaysFresh(Next(s, es[0]), es[1..], k, n);
    }
  }

  /**
    Whatever fails or is cancelled, nobody is answered after a reload request with a list whose read
    began before it, exactly when no rebuild was in flight as the request landed; one in flight
    absorbs the request.
   */
  lemma RequestTakesEffectIff(before: seq<Event>)
    requires Legal(IDLE, before)
    ensures var s := Run(IDLE, before);
            var s' := Next(s, RequestReload);
            (forall later :: Legal(s', later) ==> AnswersFresh(Run(s', later), |s.answers|, s'.requests))
            <==> s.lock.None?
  {
    var s := Run(IDLE, before);
    var s' := Next(s, RequestReload);
    RunKeepsInv(IDLE, before);
    if s.lock.None? {
      forall later | Legal(s', later)
        ensures AnswersFresh(Run(s', later), |s.answers|, s'.requests)
      {
        RunStaysFresh(s', later, |s.answers|, s'.requests);
      }
    } else {
      var t := s.lock.value;
      var later := [Loaded(t, [])];
      var s2 := Next(s', later[0]);
      assert later[1..] == [] && Legal(s2, later[1..]) && Run(s2, later[1..]) == s2;
      assert Legal(s', later) && Run(s', later) == s2;
      assert s2.answers[|s.answers|].rebuilds == |s.builds| + 1 && s2.builds[|s.builds|].seen == s.tasks[t].seen;
      assert !AnswersFresh(Run(s', later), |s.answers|, s'.requests);
    }
  }

  /** While the flag is clear a getter is answered at once, with the list loaded last. */
  lemma ClearFlagAnswersAtOnce(es: seq<Event>, t: nat)
    requires Legal(IDLE, es) && UpToDate(es) && t !in Run(IDLE, es).tasks
    ensures var loads := LoadedRows(es);
            && loads != []
            && Next(Run(IDLE, es), Get(t)).answers == Run(IDLE, es).answers + [Answer(t, loads[|loads| - 1], |loads|)]
  {
    FlagIsExact(es);
    RunKeepsInv(IDLE, es);
    var s := Run(IDLE, es);
    assert RowsOf(s.builds)[|s.builds| - 1] == s.builds[|s.builds| - 1].rows;
  }
}
