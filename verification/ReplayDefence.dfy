/**
  The replay defence of app/security/hmac_auth.py: header checks, timestamp window, key lookup,
  signature, nonce claim, and the vacuum that drops old nonces.

  One verification is one step of a shared clock: the timestamp check and the nonce claim see the
  same time, and the claimed row is stamped with it.  The window W and the retention R are
  parameters; the deployed values are the two constants.
 */
module ReplayDefence {
  import opened Wrappers

  const TIMESTAMP_WINDOW_SECONDS: nat := 300
  const NONCE_RETENTION_SECONDS: nat := 600

  /** A missing header is the empty string. */
  datatype Request = Request(
    apiKey: string, timestamp: string, nonce: string, signature: string,
    httpMethod: string, path: string, bodyDigest: string)

  datatype ApiKey = ApiKey(secret: string, enabled: bool, revoked: bool)

  /** Integer parsing and HMAC-SHA256 (RFC 2104), both left abstract. */
  datatype Primitives = Primitives(parseInt: string -> Option<int>, hmac: (string, string) -> string)

  datatype ErrorCode = REQ_4010 | REQ_4011 | REQ_4012 | REQ_4013 | REQ_4014

  datatype Reply = Rejected(code: ErrorCode) | Authed(keyId: string)

  type NonceRow = (string, string)

  function Canonical(r: Request): string {
    r.timestamp + "\n" + r.nonce + "\n" + r.httpMethod + "\n" + r.path + "\n" + r.bodyDigest
  }

  predicate InWindow(now: real, ts: int, W: nat) {
    -(W as real) <= now - ts as real <= W as real
  }

  /** Everything that is checked before the nonce is claimed; None when all of it passes. */
  function PreChecks(r: Request, prim: Primitives, keys: map<string, ApiKey>, now: real, W: nat): Option<ErrorCode> {
    if r.apiKey == "" || r.timestamp == "" || r.nonce == "" || r.signature == "" then Some(REQ_4011)
    else if prim.parseInt(r.timestamp).None? then Some(REQ_4012)
    else if !InWindow(now, prim.parseInt(r.timestamp).value, W) then Some(REQ_4012)
    else if r.apiKey !in keys then Some(REQ_4011)
    else if !keys[r.apiKey].enabled || keys[r.apiKey].revoked then Some(REQ_4014)
    else if prim.hmac(keys[r.apiKey].secret, Canonical(r)) != r.signature then Some(REQ_4010)
    else None
  }

  function VerifyReply(r: Request, prim: Primitives, keys: map<string, ApiKey>, rows: map<NonceRow, real>,
                       now: real, W: nat): Reply {
    match PreChecks(r, prim, keys, now, W)
    case Some(code) => Rejected(code)
    case None => if (r.apiKey, r.nonce) in rows then Rejected(REQ_4013) else Authed(r.apiKey)
  }

  function Vacuumed(rows: map<NonceRow, real>, now: real, R: nat): map<NonceRow, real> {
    map k | k in rows && !(rows[k] < now - R as real) :: rows[k]
  }

  /** The nonce table that both operations update. */
  class NonceTable {
    var rows: map<NonceRow, real>

    constructor ()
      ensures rows == map[]
    {
      rows := map[];
    }

    /** INSERT .. ON CONFLICT DO NOTHING: claims the pair unless it is already there. */
    method ClaimNonce(keyId: string, nonce: string, now: real) returns (claimed: bool)
      modifies this
      ensures claimed <==> (keyId, nonce) !in old(rows)
      ensures rows == if claimed then old(rows)[(keyId, nonce) := now] else old(rows)
    {
      claimed := (keyId, nonce) !in rows;
      if claimed {
        rows := rows[(keyId, nonce) := now];
      }
    }

    method VerifyRequest(r: Request, prim: Primitives, keys: map<string, ApiKey>, now: real, W: nat)
      returns (reply: Reply)
      modifies this
      ensures reply == VerifyReply(r, prim, keys, old(rows), now, W)
      ensures rows == if reply.Authed? then old(rows)[(r.apiKey, r.nonce) := now] else old(rows)
    {
      var failed := PreChecks(r, prim, keys, now, W);
      if failed.Some? {
        return Rejected(failed.value);
      }
      var claimed := ClaimNonce(r.apiKey, r.nonce, now);
      reply := if claimed then Authed(r.apiKey) else Rejected(REQ_4013);
    }

    /** DELETE .. WHERE used_at < cutoff, and how many rows went. */
    method VacuumOldNonces(now: real, R: nat) returns (deleted: nat)
      modifies this
      ensures rows == Vacuumed(old(rows), now, R)
      ensures deleted == |old(rows)| - |rows|
    {
      var kept := Vacuumed(rows, now, R);
      var stale := rows.Keys - kept.Keys;
      assert rows.Keys == kept.Keys + stale;
      deleted := |stale|;
      rows := kept;
    }
  }

  /* ---------- One verification ---------- */

  predicate OneLine(s: string) { '\n' !in s }

  /**
    A header value and the method of a request cannot hold a line break and a digest is hexadecimal;
    the path may be anything.
   */
  predicate LinesUnbroken(r: Request) {
    OneLine(r.timestamp) && OneLine(r.nonce) && OneLine(r.httpMethod) && OneLine(r.bodyDigest)
  }

  lemma FirstLineSplits(a: string, x: string, b: string, y: string)
    requires OneLine(a) && OneLine(b) && a + "\n" + x == b + "\n" + y
    ensures a == b && x == y
  {
    var s, t := a + "\n" + x, b + "\n" + y;
    assert s[|a|] == '\n' && t[|b|] == '\n';
    assert forall i :: 0 <= i < |a| ==> s[i] == a[i];
    assert forall i :: 0 <= i < |b| ==> t[i] == b[i];
    assert s[..|a|] == a && t[..|b|] == b && s[|a| + 1..] == x && t[|b| + 1..] == y;
  }

  lemma LastLineSplits(x: string, a: string, y: string, b: string)
    requires OneLine(a) && OneLine(b) && x + "\n" + a == y + "\n" + b
    ensures x == y && a == b
  {
    var s, t := x + "\n" + a, y + "\n" + b;
    assert s[|x|] == '\n' && t[|y|] == '\n';
    assert forall i :: |x| < i < |s| ==> s[i] == a[i - |x| - 1];
    assert forall i :: |y| < i < |t| ==> t[i] == b[i - |y| - 1];
    assert s[..|x|] == x && t[..|y|] == y && s[|x| + 1..] == a && t[|y| + 1..] == b;
  }

  /** One signature never stands for two different requests: the signed string determines every signed field. */
  lemma CanonicalIsInjective(r: Request, q: Request)
    requires LinesUnbroken(r) && LinesUnbroken(q) && Canonical(r) == Canonical(q)
    ensures r.timestamp == q.timestamp && r.nonce == q.nonce && r.httpMethod == q.httpMethod
    ensures r.path == q.path && r.bodyDigest == q.bodyDigest
  {
    hide OneLine;
    FromTimestamp(r);
    FromTimestamp(q);
    FirstLineSplits(r.timestamp, FromNonce(r), q.timestamp, FromNonce(q));
    FirstLineSplits(r.nonce, FromMethod(r), q.nonce, FromMethod(q));
    FirstLineSplits(r.httpMethod, FromPath(r), q.httpMethod, FromPath(q));
    LastLineSplits(r.path, r.bodyDigest, q.path, q.bodyDigest);
  }

  function FromPath(r: Request): string { r.path + "\n" + r.bodyDigest }

  function FromMethod(r: Request): string { r.httpMethod + "\n" + FromPath(r) }

  function FromNonce(r: Request): string { r.nonce + "\n" + FromMethod(r) }

  // The signed string, one line at a time.
  lemma FromTimestamp(r: Request)
    ensures Canonical(r) == r.timestamp + "\n" + FromNonce(r)
  {
    var head := r.timestamp + "\n" + r.nonce + "\n";
    assert Canonical(r) == head + r.httpMethod + "\n" + FromPath(r);
    assert Canonical(r) == head + FromMethod(r);
  }

  /** Fresh in time, from a usable key, and signed with that key's secret. */
  predicate Authentic(r: Request, prim: Primitives, keys: map<string, ApiKey>, now: real, W: nat) {
    && r.apiKey in keys && keys[r.apiKey].enabled && !keys[r.apiKey].revoked
    && r.signature == prim.hmac(keys[r.apiKey].secret, Canonical(r))
    && "" !in {r.apiKey, r.timestamp, r.nonce, r.signature}
    && prim.parseInt(r.timestamp).Some? && InWindow(now, prim.parseInt(r.timestamp).value, W)
  }

  /** Exactly the authentic requests get as far as the nonce table, so no other one can use a nonce up. */
  lemma OnlyAuthenticRequestsReachTheTable(
    r: Request, prim: Primitives, keys: map<string, ApiKey>, rows: map<NonceRow, real>, now: real, W: nat)
    ensures var reply := VerifyReply(r, prim, keys, rows, now, W);
            && (reply.Authed? <==> Authentic(r, prim, keys, now, W) && (r.apiKey, r.nonce) !in rows)
            && (reply == Rejected(REQ_4013) <==> Authentic(r, prim, keys, now, W) && (r.apiKey, r.nonce) in rows)
            && (reply.Authed? ==> reply.keyId == r.apiKey)
  {
  }

  /**
    Which code a refused request gets, and which failure wins when there are several: a missing
    header, then the timestamp, then an unknown key, then a disabled or revoked one, then the
    signature, then the nonce.
   */
  lemma RefusalCodes(r: Request, prim: Primitives, keys: map<string, ApiKey>, rows: map<NonceRow, real>,
                     now: real, W: nat)
    ensures var reply, ts := VerifyReply(r, prim, keys, rows, now, W), prim.parseInt(r.timestamp);
            var complete := |r.apiKey| > 0 && |r.timestamp| > 0 && |r.nonce| > 0 && |r.signature| > 0;
            var timely := complete && ts.Some? && ts.value as real - W as real <= now <= ts.value as real + W as real;
            var known := timely && r.apiKey in keys;
            var usable := known && keys[r.apiKey].enabled && !keys[r.apiKey].revoked;
            var signed := usable && r.signature == prim.hmac(keys[r.apiKey].secret, Canonical(r));
            && (reply == Rejected(REQ_4011) <==> !complete || (timely && !known))
            && (reply == Rejected(REQ_4012) <==> complete && !timely)
            && (reply == Rejected(REQ_4014) <==> known && !usable)
            && (reply == Rejected(REQ_4010) <==> usable && !signed)
            && (reply == Rejected(REQ_4013) <==> signed && (r.apiKey, r.nonce) in rows)
            && (reply == Authed(r.apiKey) <==> signed && (r.apiKey, r.nonce) !in rows)
  {
    hide Canonical;
  }

  /** As deployed: five minutes either way, and a nonce row goes once it is more than ten minutes old. */
  lemma DeployedTimes(now: real, ts: int, rows: map<NonceRow, real>, k: NonceRow)
    ensures InWindow(now, ts, TIMESTAMP_WINDOW_SECONDS) <==> ts as real - 300.0 <= now <= ts as real + 300.0
    ensures k in Vacuumed(rows, now, NONCE_RETENTION_SECONDS) <==> k in rows && now - rows[k] <= 600.0
  {
  }

  /* ---------- Whole runs ---------- */

  /** An accepted request, the secret its key had, its timestamp, and the time it was accepted at. */
  datatype Accept = Accept(request: Request, secret: string, ts: int, at: real) {
    function Row(): NonceRow { (request.apiKey, request.nonce) }
  }

  datatype State = State(now: real, rows: map<NonceRow, real>, accepted: seq<Accept>)

  /** The key table may change between verifications. */
  datatype Event = Tick(seconds: real) | Verify(request: Request, keys: map<string, ApiKey>) | Vacuum

  function Next(s: State, e: Event, prim: Primitives, W: nat, R: nat): State {
    match e
    case Tick(d) => s.(now := s.now + d)
    case Vacuum => s.(rows := Vacuumed(s.rows, s.now, R))
    case Verify(r, keys) =>
      if VerifyReply(r, prim, keys, s.rows, s.now, W).Authed? then
        s.(rows := s.rows[(r.apiKey, r.nonce) := s.now],
           accepted := s.accepted + [Accept(r, keys[r.apiKey].secret, prim.parseInt(r.timestamp).value, s.now)])
      else s
  }

  function Run(s: State, es: seq<Event>, prim: Primitives, W: nat, R: nat): State
    decreases |es|
  {
    if es == [] then s else Run(Next(s, es[0], prim, W, R), es[1..], prim, W, R)
  }

  function Start(now: real): State { State(now, map[], []) }

  predicate ClockForward(es: seq<Event>) {
    forall i :: 0 <= i < |es| && es[i].Tick? ==> es[i].seconds >= 0.0
  }

  /** No (key id, nonce, timestamp) is accepted twice. */
  predicate NoReplay(accepted: seq<Accept>) {
    forall i, j :: 0 <= i < j < |accepted| ==>
      !(accepted[i].Row() == accepted[j].Row() && accepted[i].ts == accepted[j].ts)
  }

  /**
    Every row was left by an accepted request, every accepted request was in its window and, until
    it is older than the retention, still has its row.
   */
  predicate Inv(s: State, W: nat, R: nat) {
    && (forall k :: k in s.rows ==> exists i :: 0 <= i < |s.accepted| && RowOf(s.accepted[i], k, s.rows[k]))
    && (forall i :: 0 <= i < |s.accepted| ==>
          && s.accepted[i].at <= s.now
          && InWindow(s.accepted[i].at, s.accepted[i].ts, W)
          && (s.accepted[i].at >= s.now - R as real ==>
                s.accepted[i].Row() in s.rows && s.rows[s.accepted[i].Row()] == s.accepted[i].at))
    && NoReplay(s.accepted)
  }

  predicate RowOf(a: Accept, k: NonceRow, usedAt: real) {
    k == a.Row() && a.at == usedAt
  }

  // A second acceptance of the same triple would still be within the retention of the first.
  lemma AcceptIsFresh(s: State, r: Request, keys: map<string, ApiKey>, prim: Primitives, W: nat, R: nat)
    requires 2 * W <= R && Inv(s, W, R)
    requires VerifyReply(r, prim, keys, s.rows, s.now, W).Authed?
    ensures NoReplay(Next(s, Verify(r, keys), prim, W, R).accepted)
    ensures forall i :: 0 <= i < |s.accepted| && s.accepted[i].Row() == (r.apiKey, r.nonce) ==>
              s.accepted[i].at < s.now - R as real
  {
  }

  lemma StepKeepsInv(s: State, e: Event, prim: Primitives, W: nat, R: nat)
    requires 2 * W <= R && Inv(s, W, R) && (e.Tick? ==> e.seconds >= 0.0)
    ensures Inv(Next(s, e, prim, W, R), W, R)
  {
    var s' := Next(s, e, prim, W, R);
    if e.Verify? && s' != s {
      hide NoReplay;
      AcceptIsFresh(s, e.request, e.keys, prim, W, R);
      forall k | k in s'.rows
        ensures exists i :: 0 <= i < |s'.accepted| && RowOf(s'.accepted[i], k, s'.rows[k])
      {
        if k == (e.request.apiKey, e.request.nonce) {
          assert RowOf(s'.accepted[|s.accepted|], k, s'.rows[k]);
        } else {
          var i :| 0 <= i < |s.accepted| && RowOf(s.accepted[i], k, s.rows[k]);
          assert RowOf(s'.accepted[i], k, s'.rows[k]);
        }
      }
    }
  }

  lemma {:induction false} RunKeepsInv(s: State, es: seq<Event>, prim: Primitives, W: nat, R: nat)
    requires 2 * W <= R && Inv(s, W, R) && ClockForward(es)
    ensures Inv(Run(s, es, prim, W, R), W, R)
    decreases |es|
  {
    hide Inv, Next;
    if es != [] {
      StepKeepsInv(s, es[0], prim, W, R);
      RunKeepsInv(Next(s, es[0], prim, W, R), es[1..], prim, W, R);
    }
  }

  /** The deployed constants meet the condition, with nothing to spare. */
  lemma DeployedConstantsAreSafe(now: real, es: seq<Event>, prim: Primitives)
    requires ClockForward(es)
    ensures NoReplay(Run(Start(now), es, prim, TIMESTAMP_WINDOW_SECONDS, NONCE_RETENTION_SECONDS).accepted)
  {
    RunKeepsInv(Start(now), es, prim, TIMESTAMP_WINDOW_SECONDS, NONCE_RETENTION_SECONDS);
  }

  /**
    With a shorter retention, whatever the primitives and the keys, every request that can be accepted
    at all can be replayed: sent a window ahead of its timestamp, and again two windows later, right
    after a vacuum.
   */
  lemma ShortRetentionReplays(r: Request, prim: Primitives, keys: map<string, ApiKey>, W: nat, R: nat)
    returns (now: real, es: seq<Event>)
    requires R < 2 * W && prim.parseInt(r.timestamp).Some?
    requires Authentic(r, prim, keys, prim.parseInt(r.timestamp).value as real, W)
    ensures ClockForward(es) && !NoReplay(Run(Start(now), es, prim, W, R).accepted)
  {
    var ts := prim.parseInt(r.timestamp).value;
    now := ts as real - W as real;
    es := [Verify(r, keys), Tick(2.0 * W as real), Vacuum, Verify(r, keys)];
    var a := Accept(r, keys[r.apiKey].secret, ts, now);
    var b := a.(at := now + 2.0 * W as real);
    OnlyAuthenticRequestsReachTheTable(r, prim, keys, map[], now, W);
    OnlyAuthenticRequestsReachTheTable(r, prim, keys, map[], b.at, W);
    hide VerifyReply, Canonical;
    var s1 := Next(Start(now), es[0], prim, W, R);
    assert s1 == State(now, map[a.Row() := now], [a]);
    var s2 := Next(s1, es[1], prim, W, R);
    var s3 := Next(s2, es[2], prim, W, R);
    assert s3 == State(b.at, map[], [a]);
    var s4 := Next(s3, es[3], prim, W, R);
    assert s4.accepted == [a, b];
    assert es[1..][1..] == es[2..] && es[2..][1..] == es[3..] && es[3..][1..] == [];
    assert Run(Start(now), es, prim, W, R) == Run(s2, es[2..], prim, W, R) == Run(s4, [], prim, W, R);
    assert s4.accepted[0].ts == s4.accepted[1].ts;
  }

  /**
    Under any primitives with which some request can be accepted, the defence works in every
    interleaving of verifications, vacuums and clock ticks exactly when the retention is at least
    twice the window.
   */
  lemma ReplayDefenceIffFor(r: Request, prim: Primitives, keys: map<string, ApiKey>, W: nat, R: nat)
    requires prim.parseInt(r.timestamp).Some? && Authentic(r, prim, keys, prim.parseInt(r.timestamp).value as real, W)
    ensures (forall now: real, es: seq<Event> ::
               ClockForward(es) ==> NoReplay(Run(Start(now), es, prim, W, R).accepted))
            <==> 2 * W <= R
  {
    if 2 * W <= R {
      forall now: real, es: seq<Event> | ClockForward(es)
        ensures NoReplay(Run(Start(now), es, prim, W, R).accepted)
      {
        RunKeepsInv(Start(now), es, prim, W, R);
      }
    } else {
      var now, es := ShortRetentionReplays(r, prim, keys, W, R);
    }
  }

  /** Over all primitives at once: every run is free of replays exactly when the retention is twice the window. */
  lemma ReplayDefenceIff(W: nat, R: nat)
    ensures (forall now: real, es: seq<Event>, prim: Primitives ::
               ClockForward(es) ==> NoReplay(Run(Start(now), es, prim, W, R).accepted))
            <==> 2 * W <= R
  {
    if 2 * W <= R {
      forall now: real, es: seq<Event>, prim: Primitives | ClockForward(es)
        ensures NoReplay(Run(Start(now), es, prim, W, R).accepted)
      {
        RunKeepsInv(Start(now), es, prim, W, R);
      }
    } else {
      var prim := Primitives((_: string) => Some(0), (_: string, _: string) => "sig");
      var request := Request("key", "0", "nonce", "sig", "POST", "/", "");
      ReplayDefenceIffFor(request, prim, map["key" := ApiKey("secret", true, false)], W, R);
    }
  }

  /* ---------- Signatures ---------- */

  /** What the keys of a run would sign: the secret and the signed string of every request that names a key. */
  function Signable(es: seq<Event>): set<(string, string)> {
    set e | e in es && e.Verify? && e.request.apiKey in e.keys ::
      (e.keys[e.request.apiKey].secret, Canonical(e.request))
  }

  /** Among these, no two different strings have the same signature. */
  predicate Collisionless(pairs: set<(string, string)>, prim: Primitives) {
    forall p, q :: p in pairs && q in pairs && prim.hmac(p.0, p.1) == prim.hmac(q.0, q.1) ==> p.1 == q.1
  }

  predicate RequestsUnbroken(es: seq<Event>) {
    forall e :: e in es && e.Verify? ==> LinesUnbroken(e.request)
  }

  /** Every accepted request carries the signature of its own fields, under a secret of the run. */
  predicate AllSigned(accepted: seq<Accept>, pairs: set<(string, string)>, prim: Primitives) {
    forall i :: 0 <= i < |accepted| ==> SignedBy(accepted[i], pairs, prim)
  }

  predicate SignedBy(a: Accept, pairs: set<(string, string)>, prim: Primitives) {
    && (a.secret, Canonical(a.request)) in pairs
    && a.request.signature == prim.hmac(a.secret, Canonical(a.request))
    && prim.parseInt(a.request.timestamp) == Some(a.ts) && LinesUnbroken(a.request)
  }

  lemma {:induction false} RunSigned(s: State, es: seq<Event>, pairs: set<(string, string)>, prim: Primitives,
                                     W: nat, R: nat)
    requires AllSigned(s.accepted, pairs, prim) && RequestsUnbroken(es) && Signable(es) <= pairs
    ensures AllSigned(Run(s, es, prim, W, R).accepted, pairs, prim)
    decreases |es|
  {
    if es != [] {
      assert es[0] in es && forall e :: e in es[1..] ==> e in es;
      assert Signable(es[1..]) <= Signable(es);
      StepSigned(s, es[0], es, pairs, prim, W, R);
      hide Next, AllSigned, Signable;
      RunSigned(Next(s, es[0], prim, W, R), es[1..], pairs, prim, W, R);
    }
  }

  lemma StepSigned(s: State, e: Event, es: seq<Event>, pairs: set<(string, string)>, prim: Primitives, W: nat, R: nat)
    requires AllSigned(s.accepted, pairs, prim) && e in es && RequestsUnbroken(es) && Signable(es) <= pairs
    ensures AllSigned(Next(s, e, prim, W, R).accepted, pairs, prim)
  {
    hide Canonical, LinesUnbroken;
    if e.Verify? && e.request.apiKey in e.keys {
      assert (e.keys[e.request.apiKey].secret, Canonical(e.request)) in Signable(es);
    }
  }

  /**
    Unless two of the strings signed in the run collide, one signature is accepted at most once under
    a key, however the request around it is varied.
   */
  lemma SignatureAcceptedOnce(now: real, es: seq<Event>, prim: Primitives, W: nat, R: nat)
    requires 2 * W <= R && ClockForward(es) && RequestsUnbroken(es) && Collisionless(Signable(es), prim)
    ensures var accepted := Run(Start(now), es, prim, W, R).accepted;
            forall i, j :: 0 <= i < j < |accepted| && accepted[i].request.apiKey == accepted[j].request.apiKey ==>
              accepted[i].request.signature != accepted[j].request.signature
  {
    RunKeepsInv(Start(now), es, prim, W, R);
    RunSigned(Start(now), es, Signable(es), prim, W, R);
    var accepted := Run(Start(now), es, prim, W, R).accepted;
    hide Run, Canonical, LinesUnbroken, Signable;
    forall i, j | 0 <= i < j < |accepted| && accepted[i].request.apiKey == accepted[j].request.apiKey
      ensures accepted[i].request.signature != accepted[j].request.signature
    {
      assert SignedBy(accepted[i], Signable(es), prim) && SignedBy(accepted[j], Signable(es), prim);
      if Canonical(accepted[i].request) == Canonical(accepted[j].request) {
        CanonicalIsInjective(accepted[i].request, accepted[j].request);
        assert false;
      }
    }
  }
}
