/**
  The token-bucket rate limiter of app/security/rate_limit.py.

  A bucket is a Redis hash (`tokens`, `ts`) that one Lua script refills, caps, charges and
  writes back, together with a key expiry.  Time and token counts are reals.
 */
module RateLimit {
  import opened Wrappers
  import opened Sets

  /** Capacity and refill rate (tokens per second) that every call on one key uses. */
  datatype Limit = Limit(capacity: real, rate: real) {
    predicate Valid() {
      capacity >= 0.0 && rate > 0.0
    }

    // Seconds the key outlives its last touch.
    function Ttl(): real
      requires Valid()
    {
      Ceil(capacity / rate) as real + 60.0
    }

    // Tokens refilled in d seconds.
    function Earned(d: real): real { d * rate }

    // Whole seconds until `short` tokens have been refilled.
    function SecondsFor(short: real): int
      requires Valid()
    {
      Ceil(short / rate)
    }
  }

  datatype Bucket = Bucket(tokens: real, ts: real)

  datatype Outcome = Outcome(allowed: bool, retryAfter: int)

  function Ceil(x: real): (n: int)
    ensures x <= n as real < x + 1.0
  {
    -((-x).Floor)
  }

  function Min(a: real, b: real): real { if a <= b then a else b }

  function Max(a: real, b: real): real { if a <= b then b else a }

  /** Tokens on hand once the refill since the last write is applied; a missing key is a full bucket. */
  function Available(b: Option<Bucket>, l: Limit, now: real): real {
    match b
    case None => l.capacity
    case Some(s) => Min(l.capacity, s.tokens + l.Earned(Max(0.0, now - s.ts)))
  }

  /** One run of the script on one bucket: the state written back and the reply. */
  function Charge(b: Option<Bucket>, l: Limit, now: real, cost: real): (Bucket, Outcome)
    requires l.Valid()
  {
    var t := Available(b, l, now);
    if t >= cost then (Bucket(t - cost, now), Outcome(true, 0))
    else (Bucket(t, now), Outcome(false, l.SecondsFor(cost - t)))
  }

  /* ---------- The shared store ---------- */

  datatype Entry = Entry(bucket: Bucket, expiresAt: real)

  /** What HMGET sees at time `now`: an expired key is already gone. */
  function Lookup(store: map<string, Entry>, key: string, now: real): Option<Bucket> {
    if key in store && now < store[key].expiresAt then Some(store[key].bucket) else None
  }

  function Write(store: map<string, Entry>, key: string, l: Limit, now: real, cost: real): map<string, Entry>
    requires l.Valid()
  {
    store[key := Entry(Charge(Lookup(store, key, now), l, now, cost).0, now + l.Ttl())]
  }

  function MinuteKey(keyId: string): string { "rl:apikey:" + keyId + ":m" }

  function HourKey(keyId: string): string { "rl:apikey:" + keyId + ":h" }

  function PerMinute(n: nat): Limit { Limit(n as real, n as real / 60.0) }

  function PerHour(n: nat): Limit { Limit(n as real, n as real / 3600.0) }

  class RateLimiter {
    var store: map<string, Entry>

    constructor ()
      ensures store == map[]
    {
      store := map[];
    }

    method Consume(key: string, l: Limit, now: real, cost: real) returns (out: Outcome)
      requires l.Valid()
      modifies this
      ensures out == Charge(Lookup(old(store), key, now), l, now, cost).1
      ensures store == Write(old(store), key, l, now, cost)
    {
      var tokens, ts := l.capacity, now;
      if key in store && now < store[key].expiresAt {
        tokens, ts := store[key].bucket.tokens, store[key].bucket.ts;
      }
      EarnedFacts(l, 0.0, 0.0);
      hide Limit.Earned, Limit.SecondsFor;
      var delta := Max(0.0, now - ts);
      tokens := Min(l.capacity, tokens + l.Earned(delta));
      if tokens >= cost {
        tokens := tokens - cost;
        out := Outcome(true, 0);
      } else {
        out := Outcome(false, l.SecondsFor(cost - tokens));
      }
      store := store[key := Entry(Bucket(tokens, now), now + l.Ttl())];
    }

    /** Both buckets must allow; a minute denial answers at once and leaves the hour bucket alone. */
    method CheckCaller(keyId: string, perMinute: nat, perHour: nat, minuteNow: real, hourNow: real)
      returns (out: Outcome)
      requires 0 < perMinute && 0 < perHour
      modifies this
      ensures var m := Charge(Lookup(old(store), MinuteKey(keyId), minuteNow), PerMinute(perMinute), minuteNow, 1.0);
              var h := Charge(Lookup(old(store), HourKey(keyId), hourNow), PerHour(perHour), hourNow, 1.0);
              var s := Write(old(store), MinuteKey(keyId), PerMinute(perMinute), minuteNow, 1.0);
              && (out.allowed <==> m.1.allowed && h.1.allowed)
              && out == (if m.1.allowed then h.1 else m.1)
              && store == if m.1.allowed then Write(s, HourKey(keyId), PerHour(perHour), hourNow, 1.0) else s
    {
      KeysDiffer(keyId);
      out := Consume(MinuteKey(keyId), PerMinute(perMinute), minuteNow, 1.0);
      if out.allowed {
        out := Consume(HourKey(keyId), PerHour(perHour), hourNow, 1.0);
      }
    }
  }

  lemma KeysDiffer(keyId: string)
    ensures MinuteKey(keyId) != HourKey(keyId)
  {
    assert MinuteKey(keyId)[|MinuteKey(keyId)| - 1] == 'm';
    assert HourKey(keyId)[|HourKey(keyId)| - 1] == 'h';
  }

  /* ---------- Callers do not share buckets ---------- */

  lemma AffixCancels(prefix: string, a: string, b: string, suffix: string)
    requires prefix + a + suffix == prefix + b + suffix
    ensures a == b
  {
    var s, t := prefix + a + suffix, prefix + b + suffix;
    assert |a| == |b|;
    assert s[|prefix|..|prefix| + |a|] == a && t[|prefix|..|prefix| + |b|] == b;
  }

  /** No bucket of one caller is a bucket of another. */
  lemma KeysApart(a: string, b: string)
    requires a != b
    ensures {MinuteKey(a), HourKey(a)} !! {MinuteKey(b), HourKey(b)}
  {
    if MinuteKey(a) == MinuteKey(b) {
      AffixCancels("rl:apikey:", a, b, ":m");
    }
    if HourKey(a) == HourKey(b) {
      AffixCancels("rl:apikey:", a, b, ":h");
    }
    assert MinuteKey(a)[|MinuteKey(a)| - 1] == 'm' && HourKey(a)[|HourKey(a)| - 1] == 'h';
    assert MinuteKey(b)[|MinuteKey(b)| - 1] == 'm' && HourKey(b)[|HourKey(b)| - 1] == 'h';
  }

  function IpKey(ip: string): string { "rl:ip:" + ip + ":m" }

  /** Nor is it one of the buckets kept by address. */
  lemma IpKeysApart(keyId: string, ip: string)
    ensures IpKey(ip) != MinuteKey(keyId) && IpKey(ip) != HourKey(keyId)
  {
    assert IpKey(ip)[3] == 'i' && MinuteKey(keyId)[3] == 'a' && HourKey(keyId)[3] == 'a';
  }

  /** One of the two script calls of a check_caller call, by any caller; calls may interleave freely. */
  datatype BucketUse = BucketUse(keyId: string, hour: bool, now: real) {
    function Key(): string { if hour then HourKey(keyId) else MinuteKey(keyId) }
  }

  /** The two limits of every caller. */
  datatype Plans = Plans(perMinute: string -> nat, perHour: string -> nat) {
    ghost predicate Valid() { forall k :: perMinute(k) > 0 && perHour(k) > 0 }

    function LimitOf(u: BucketUse): Limit {
      if u.hour then PerHour(perHour(u.keyId)) else PerMinute(perMinute(u.keyId))
    }
  }

  /** The answers to a sequence of uses, each with the caller it went to. */
  ghost function Answers(store: map<string, Entry>, plans: Plans, uses: seq<BucketUse>): seq<(string, Outcome)>
    requires plans.Valid()
    decreases |uses|
  {
    if uses == [] then []
    else
      var u, l := uses[0], plans.LimitOf(uses[0]);
      [(u.keyId, Charge(Lookup(store, u.Key(), u.now), l, u.now, 1.0).1)]
      + Answers(Write(store, u.Key(), l, u.now, 1.0), plans, uses[1..])
  }

  function UsesOf(uses: seq<BucketUse>, keyId: string): seq<BucketUse> {
    if uses == [] then [] else (if uses[0].keyId == keyId then [uses[0]] else []) + UsesOf(uses[1..], keyId)
  }

  function AnswersTo(answers: seq<(string, Outcome)>, keyId: string): seq<(string, Outcome)> {
    if answers == [] then []
    else (if answers[0].0 == keyId then [answers[0]] else []) + AnswersTo(answers[1..], keyId)
  }

  // The two stores hold the same entries under the caller's own keys.
  ghost predicate AgreeOn(s: map<string, Entry>, t: map<string, Entry>, keyId: string) {
    forall k :: k == MinuteKey(keyId) || k == HourKey(keyId) ==> (k in s <==> k in t) && (k in s ==> s[k] == t[k])
  }

  lemma {:induction false} IsolatedFrom(s: map<string, Entry>, t: map<string, Entry>, plans: Plans,
                                        uses: seq<BucketUse>, keyId: string)
    requires plans.Valid() && AgreeOn(s, t, keyId)
    ensures AnswersTo(Answers(s, plans, uses), keyId) == Answers(t, plans, UsesOf(uses, keyId))
    decreases |uses|
  {
    hide Charge, MinuteKey, HourKey, Limit.Ttl;
    if uses != [] {
      var u, l := uses[0], plans.LimitOf(uses[0]);
      var s' := Write(s, u.Key(), l, u.now, 1.0);
      var answer := (u.keyId, Charge(Lookup(s, u.Key(), u.now), l, u.now, 1.0).1);
      var rest := Answers(s', plans, uses[1..]);
      assert Answers(s, plans, uses) == [answer] + rest && ([answer] + rest)[1..] == rest;
      if u.keyId == keyId {
        var t' := Write(t, u.Key(), l, u.now, 1.0);
        IsolatedFrom(s', t', plans, uses[1..], keyId);
        assert UsesOf(uses, keyId) == [u] + UsesOf(uses[1..], keyId);
      } else {
        KeysApart(keyId, u.keyId);
        assert u.Key() in {MinuteKey(u.keyId), HourKey(u.keyId)};
        assert MinuteKey(keyId) in {MinuteKey(keyId), HourKey(keyId)};
        assert HourKey(keyId) in {MinuteKey(keyId), HourKey(keyId)};
        IsolatedFrom(s', t, plans, uses[1..], keyId);
        assert UsesOf(uses, keyId) == UsesOf(uses[1..], keyId);
        assert AnswersTo([answer] + rest, keyId) == AnswersTo(rest, keyId);
      }
    }
  }

  /** However the calls of many callers interleave, each is answered as if the others had made none. */
  lemma CallersAreIsolated(store: map<string, Entry>, plans: Plans, uses: seq<BucketUse>, keyId: string)
    requires plans.Valid()
    ensures AnswersTo(Answers(store, plans, uses), keyId) == Answers(store, plans, UsesOf(uses, keyId))
  {
    IsolatedFrom(store, store, plans, uses, keyId);
  }

  /* ---------- The limits ---------- */

  /** A bucket drained at time t holds n/60 (n/3600) tokens for every second since, up to n, and a fresh one holds n. */
  lemma LimitsRefillAtTheirRate(n: nat, t: real, d: real)
    requires d >= 0.0
    ensures Available(Some(Bucket(0.0, t)), PerMinute(n), t + d) == Min(n as real, n as real * d / 60.0)
    ensures Available(Some(Bucket(0.0, t)), PerHour(n), t + d) == Min(n as real, n as real * d / 3600.0)
    ensures Available(None, PerMinute(n), t) == n as real == Available(None, PerHour(n), t)
  {
    assert t + d - t == d;
    assert PerMinute(n).Earned(d) == n as real * d / 60.0;
    assert PerHour(n).Earned(d) == n as real * d / 3600.0;
    hide Limit.Earned;
  }

  /** A key outlives its last use by sixty seconds more than a drained bucket takes to fill, rounded up. */
  lemma KeysOutliveRefill(store: map<string, Entry>, key: string, l: Limit, now: real, cost: real)
    requires l.Valid()
    ensures var e := Write(store, key, l, now, cost)[key];
            now + l.capacity / l.rate + 60.0 <= e.expiresAt < now + l.capacity / l.rate + 61.0 && e.bucket.ts == now
  {
    hide Limit.Earned, Limit.SecondsFor;
  }

  /** An allowed call is told to wait for nothing and costs its price; a denied one costs nothing. */
  lemma ChargeCosts(b: Option<Bucket>, l: Limit, now: real, cost: real)
    requires l.Valid()
    ensures var (b', out) := Charge(b, l, now, cost);
            && (out.allowed <==> Available(b, l, now) >= cost)
            && (out.allowed ==> out.retryAfter == 0)
            && b'.tokens + (if out.allowed then cost else 0.0) == Available(b, l, now)
  {
    hide Limit.Earned, Limit.SecondsFor;
  }

  /* ---------- Runs on one key ---------- */

  datatype Call = Call(now: real, cost: real)

  function After(b: Option<Bucket>, l: Limit, calls: seq<Call>): Option<Bucket>
    requires l.Valid()
    decreases |calls|
  {
    if calls == [] then b
    else After(Some(Charge(b, l, calls[0].now, calls[0].cost).0), l, calls[1..])
  }

  function Outcomes(b: Option<Bucket>, l: Limit, calls: seq<Call>): (outs: seq<Outcome>)
    requires l.Valid()
    ensures |outs| == |calls|
    decreases |calls|
  {
    if calls == [] then []
    else
      var (b', out) := Charge(b, l, calls[0].now, calls[0].cost);
      [out] + Outcomes(Some(b'), l, calls[1..])
  }

  predicate Fits(b: Option<Bucket>, l: Limit) {
    b.None? || 0.0 <= b.value.tokens <= l.capacity
  }

  predicate CostsNonNegative(calls: seq<Call>) {
    forall i :: 0 <= i < |calls| ==> calls[i].cost >= 0.0
  }

  /** The clock never runs backwards, starting from the bucket's own timestamp. */
  predicate Ordered(b: Option<Bucket>, calls: seq<Call>) {
    && (forall i, j :: 0 <= i < j < |calls| ==> calls[i].now <= calls[j].now)
    && (b.Some? ==> forall i :: 0 <= i < |calls| ==> b.value.ts <= calls[i].now)
  }

  // What the proofs below need of refilling: it is additive, monotone and zero for no time at all.
  lemma EarnedFacts(l: Limit, a: real, b: real)
    ensures l.Earned(a + b) == l.Earned(a) + l.Earned(b) && l.Earned(0.0) == 0.0
    ensures l.rate > 0.0 && a >= 0.0 ==> l.Earned(a) >= 0.0
    ensures l.rate > 0.0 && b >= 0.0 ==> l.Earned(b) >= 0.0
  {
  }

  // Charging keeps the token count between zero and the capacity, whatever the clock does.
  lemma ChargeFits(b: Option<Bucket>, l: Limit, now: real, cost: real)
    requires l.Valid() && Fits(b, l) && cost >= 0.0
    ensures Fits(Some(Charge(b, l, now, cost).0), l)
    ensures 0.0 <= Available(b, l, now) <= l.capacity
  {
    hide Limit.Earned, Limit.SecondsFor;
    if b.Some? {
      EarnedFacts(l, Max(0.0, now - b.value.ts), 0.0);
    }
  }

  lemma {:induction false} TokensStayInRange(b: Option<Bucket>, l: Limit, calls: seq<Call>)
    requires l.Valid() && Fits(b, l) && CostsNonNegative(calls)
    ensures Fits(After(b, l, calls), l)
    decreases |calls|
  {
    if calls != [] {
      ChargeFits(b, l, calls[0].now, calls[0].cost);
      TokensStayInRange(Some(Charge(b, l, calls[0].now, calls[0].cost).0), l, calls[1..]);
    }
  }

  lemma {:induction false} RunSplits(b: Option<Bucket>, l: Limit, calls: seq<Call>, i: nat)
    requires l.Valid() && i <= |calls|
    ensures Outcomes(b, l, calls) == Outcomes(b, l, calls[..i]) + Outcomes(After(b, l, calls[..i]), l, calls[i..])
    ensures After(b, l, calls) == After(After(b, l, calls[..i]), l, calls[i..])
    decreases |calls|
  {
    if i == 0 {
      assert calls[..0] == [] && calls[0..] == calls;
    } else {
      var b' := Charge(b, l, calls[0].now, calls[0].cost).0;
      assert calls[..i][1..] == calls[1..][..i - 1] && calls[1..][i - 1..] == calls[i..];
      RunSplits(Some(b'), l, calls[1..], i - 1);
    }
  }

  /* ---------- Admission bound ---------- */

  /** Cost of the calls that were let through. */
  function CostAdmitted(calls: seq<Call>, outs: seq<Outcome>): real
    requires |calls| == |outs|
  {
    if calls == [] then 0.0
    else (if outs[0].allowed then calls[0].cost else 0.0) + CostAdmitted(calls[1..], outs[1..])
  }

  /** Total forward movement of the clock, starting at `t`; backward jumps count for nothing. */
  function Forward(t: real, calls: seq<Call>): real
    decreases |calls|
  {
    if calls == [] then 0.0 else Max(0.0, calls[0].now - t) + Forward(calls[0].now, calls[1..])
  }

  lemma FirstCall(b: Option<Bucket>, l: Limit, calls: seq<Call>)
    requires l.Valid() && calls != []
    ensures var (b', out) := Charge(b, l, calls[0].now, calls[0].cost);
            CostAdmitted(calls, Outcomes(b, l, calls))
            == (if out.allowed then calls[0].cost else 0.0)
               + CostAdmitted(calls[1..], Outcomes(Some(b'), l, calls[1..]))
  {
    var (b', out) := Charge(b, l, calls[0].now, calls[0].cost);
    assert Outcomes(b, l, calls) == [out] + Outcomes(Some(b'), l, calls[1..]);
  }

  lemma {:induction false} DrainBound(b: Bucket, l: Limit, calls: seq<Call>)
    requires l.Valid() && Fits(Some(b), l) && CostsNonNegative(calls)
    ensures CostAdmitted(calls, Outcomes(Some(b), l, calls)) <= b.tokens + l.Earned(Forward(b.ts, calls))
    decreases |calls|
  {
    hide Limit.Earned, Limit.SecondsFor;
    EarnedFacts(l, 0.0, 0.0);
    if calls != [] {
      var (b', out) := Charge(Some(b), l, calls[0].now, calls[0].cost);
      ChargeFits(Some(b), l, calls[0].now, calls[0].cost);
      DrainBound(b', l, calls[1..]);
      EarnedFacts(l, Max(0.0, calls[0].now - b.ts), Forward(calls[0].now, calls[1..]));
      assert b'.tokens + (if out.allowed then calls[0].cost else 0.0) == Available(Some(b), l, calls[0].now);
      assert Available(Some(b), l, calls[0].now) <= b.tokens + l.Earned(Max(0.0, calls[0].now - b.ts));
      FirstCall(Some(b), l, calls);
    }
  }

  /** Any stretch of any run admits at most the capacity plus the refill for the time that passed in it. */
  lemma AdmissionBound(b: Option<Bucket>, l: Limit, calls: seq<Call>, i: nat, j: nat)
    requires l.Valid() && Fits(b, l) && CostsNonNegative(calls)
    requires i < j <= |calls|
    ensures CostAdmitted(calls[i..j], Outcomes(b, l, calls)[i..j])
         <= l.capacity + l.Earned(Forward(calls[i].now, calls[i..j]))
  {
    hide Limit.Earned, Charge, Available;
    StretchOutcomes(b, l, calls, i, j);
    TokensStayInRange(b, l, calls[..i]);
    RunBound(After(b, l, calls[..i]), l, calls[i..j]);
  }

  // The outcomes of a stretch are those of a run that starts where the stretch does.
  lemma StretchOutcomes(b: Option<Bucket>, l: Limit, calls: seq<Call>, i: nat, j: nat)
    requires l.Valid() && i <= j <= |calls|
    ensures Outcomes(b, l, calls)[i..j] == Outcomes(After(b, l, calls[..i]), l, calls[i..j])
  {
    hide Charge;
    RunSplits(b, l, calls, i);
    RunSplits(After(b, l, calls[..i]), l, calls[i..], j - i);
    assert calls[i..][..j - i] == calls[i..j];
  }

  lemma RunBound(b: Option<Bucket>, l: Limit, calls: seq<Call>)
    requires l.Valid() && Fits(b, l) && CostsNonNegative(calls) && calls != []
    ensures CostAdmitted(calls, Outcomes(b, l, calls)) <= l.capacity + l.Earned(Forward(calls[0].now, calls))
  {
    hide Limit.Earned, Limit.SecondsFor;
    ChargeFits(b, l, calls[0].now, calls[0].cost);
    var (b', out) := Charge(b, l, calls[0].now, calls[0].cost);
    DrainBound(b', l, calls[1..]);
    assert b'.tokens + (if out.allowed then calls[0].cost else 0.0) == Available(b, l, calls[0].now);
    FirstCall(b, l, calls);
  }

  /* ---------- Denied calls leave no trace ---------- */

  // Two refills in a row are one refill.
  lemma RefillComposes(b: Option<Bucket>, l: Limit, t1: real, t2: real)
    requires l.Valid() && Fits(b, l) && t1 <= t2
    requires b.Some? ==> b.value.ts <= t1
    ensures Available(Some(Bucket(Available(b, l, t1), t1)), l, t2) == Available(b, l, t2)
  {
    hide Limit.Earned;
    EarnedFacts(l, t2 - t1, 0.0);
    if b.Some? {
      EarnedFacts(l, t1 - b.value.ts, t2 - t1);
    }
  }

  lemma {:induction false} AfterTime(b: Option<Bucket>, l: Limit, calls: seq<Call>)
    requires l.Valid() && calls != []
    ensures After(b, l, calls).Some? && After(b, l, calls).value.ts == calls[|calls| - 1].now
    decreases |calls|
  {
    hide Limit.SecondsFor, Available;
    if |calls| > 1 {
      AfterTime(Some(Charge(b, l, calls[0].now, calls[0].cost).0), l, calls[1..]);
    }
  }

  // From a denied call's bucket the run goes on as if the call had not been made.
  lemma SkipDenied(b: Option<Bucket>, l: Limit, denied: Call, rest: seq<Call>)
    requires l.Valid() && Fits(b, l) && Ordered(b, [denied] + rest)
    requires !Charge(b, l, denied.now, denied.cost).1.allowed
    ensures Outcomes(Some(Charge(b, l, denied.now, denied.cost).0), l, rest) == Outcomes(b, l, rest)
  {
    hide Limit.Earned, Limit.SecondsFor, Available;
    if rest != [] {
      assert ([denied] + rest)[0] == denied && ([denied] + rest)[1] == rest[0];
      RefillComposes(b, l, denied.now, rest[0].now);
    }
  }

  lemma RunConcat(b: Option<Bucket>, l: Limit, xs: seq<Call>, ys: seq<Call>)
    requires l.Valid()
    ensures Outcomes(b, l, xs + ys) == Outcomes(b, l, xs) + Outcomes(After(b, l, xs), l, ys)
  {
    hide Charge;
    RunSplits(b, l, xs + ys, |xs|);
    assert (xs + ys)[..|xs|] == xs && (xs + ys)[|xs|..] == ys;
  }

  /** Deleting a denied call from a run changes no other outcome. */
  lemma {:induction false} DeniedCallsAreInvisible(b: Option<Bucket>, l: Limit, before: seq<Call>, denied: Call,
                                                   rest: seq<Call>)
    requires l.Valid() && Fits(b, l) && CostsNonNegative(before) && Ordered(b, before + ([denied] + rest))
    requires !Outcomes(b, l, before + ([denied] + rest))[|before|].allowed
    ensures var outs := Outcomes(b, l, before + ([denied] + rest));
            Outcomes(b, l, before + rest) == outs[..|before|] + outs[|before| + 1..]
  {
    hide Charge, Fits, Outcomes, After;
    var s, calls := After(b, l, before), before + ([denied] + rest);
    RunConcat(b, l, before, [denied] + rest);
    RunConcat(b, l, before, rest);
    TokensStayInRange(b, l, before);
    OrderedAfter(b, l, before, [denied] + rest);
    OneThenRest(s, l, denied, rest);
    DropMiddle(Outcomes(b, l, before), Charge(s, l, denied.now, denied.cost).1, Outcomes(s, l, rest));
    SkipDenied(s, l, denied, rest);
  }

  lemma DropMiddle<T>(xs: seq<T>, y: T, zs: seq<T>)
    ensures var all := xs + ([y] + zs);
            all[|xs|] == y && all[..|xs|] + all[|xs| + 1..] == xs + zs
  {
  }

  // The clock goes on from where the first part of a run left it.
  lemma OrderedAfter(b: Option<Bucket>, l: Limit, before: seq<Call>, later: seq<Call>)
    requires l.Valid() && Ordered(b, before + later)
    ensures Ordered(After(b, l, before), later)
  {
    var calls := before + later;
    assert forall i :: 0 <= i < |later| ==> later[i] == calls[|before| + i];
    if before != [] {
      AfterTime(b, l, before);
      assert before[|before| - 1] == calls[|before| - 1];
    }
  }

  lemma OneThenRest(b: Option<Bucket>, l: Limit, c: Call, rest: seq<Call>)
    requires l.Valid()
    ensures var (b', out) := Charge(b, l, c.now, c.cost);
            Outcomes(b, l, [c] + rest) == [out] + Outcomes(Some(b'), l, rest)
  {
    hide Charge;
    assert ([c] + rest)[1..] == rest;
  }

  /** Every call has the cost that check_caller and check_ip charge. */
  predicate UnitCosts(calls: seq<Call>) {
    forall i :: 0 <= i < |calls| ==> calls[i].cost == 1.0
  }

  /** Same outcomes for every later sequence of such calls on the bucket. */
  ghost predicate Indistinguishable(b: Option<Bucket>, b': Option<Bucket>, l: Limit, t: real)
    requires l.Valid()
  {
    forall calls :: UnitCosts(calls) && Ordered(Some(Bucket(0.0, t)), calls) ==>
      Outcomes(b, l, calls) == Outcomes(b', l, calls)
  }

  /**
    A check_caller call that is denied leaves no trace in its two buckets exactly when it was the
    minute bucket that denied it; a call the hour bucket denies has spent a minute token.
   */
  lemma DeniedCallerInvisibleIff(mb: Option<Bucket>, hb: Option<Bucket>, m: Limit, h: Limit, tm: real, th: real)
    requires m.Valid() && h.Valid() && Fits(mb, m) && Fits(hb, h) && tm <= th
    requires (mb.Some? ==> mb.value.ts <= tm) && (hb.Some? ==> hb.value.ts <= th)
    requires !(Charge(mb, m, tm, 1.0).1.allowed && Charge(hb, h, th, 1.0).1.allowed)
    ensures var (mb', mOut) := Charge(mb, m, tm, 1.0);
            var hb' := if mOut.allowed then Some(Charge(hb, h, th, 1.0).0) else hb;
            Indistinguishable(mb, Some(mb'), m, tm) && Indistinguishable(hb, hb', h, th) <==> !mOut.allowed
  {
    var (mb', mOut) := Charge(mb, m, tm, 1.0);
    if mOut.allowed {
      SpentTokenShows(mb, m, tm);
    } else {
      forall calls | UnitCosts(calls) && Ordered(Some(Bucket(0.0, tm)), calls)
        ensures Outcomes(mb, m, calls) == Outcomes(Some(mb'), m, calls)
      {
        hide Charge;
        SkipDenied(mb, m, Call(tm, 1.0), calls);
      }
    }
  }

  function Burst(n: nat, t: real): (calls: seq<Call>)
    ensures |calls| == n && UnitCosts(calls) && Ordered(Some(Bucket(0.0, t)), calls)
  {
    seq(n, _ => Call(t, 1.0))
  }

  // A burst of as many calls as there are tokens: with one token less the last call is denied.
  lemma {:induction false} BurstShows(b: Option<Bucket>, b': Option<Bucket>, l: Limit, n: nat, t: real)
    requires l.Valid() && n > 0
    requires Available(b, l, t) >= n as real > Available(b', l, t) == Available(b, l, t) - 1.0
    ensures Outcomes(b, l, Burst(n, t))[n - 1].allowed && !Outcomes(b', l, Burst(n, t))[n - 1].allowed
    decreases n
  {
    EarnedFacts(l, 0.0, 0.0);
    hide Limit.Earned, Limit.SecondsFor;
    if n > 1 {
      assert Burst(n, t)[1..] == Burst(n - 1, t);
      BurstShows(Some(Charge(b, l, t, 1.0).0), Some(Charge(b', l, t, 1.0).0), l, n - 1, t);
    }
  }

  lemma SpentTokenShows(b: Option<Bucket>, l: Limit, t: real)
    requires l.Valid() && Fits(b, l) && Charge(b, l, t, 1.0).1.allowed
    ensures !Indistinguishable(b, Some(Charge(b, l, t, 1.0).0), l, t)
  {
    var b', n := Charge(b, l, t, 1.0).0, Available(b, l, t).Floor;
    ChargeFits(b, l, t, 1.0);
    EarnedFacts(l, 0.0, 0.0);
    hide Limit.Earned, Limit.SecondsFor;
    assert Available(Some(b'), l, t) == Available(b, l, t) - 1.0;
    BurstShows(b, Some(b'), l, n, t);
    assert Outcomes(b, l, Burst(n, t)) != Outcomes(Some(b'), l, Burst(n, t));
  }

  /* ---------- retry_after ---------- */

  /** Every call of the run is denied. */
  predicate AllDenied(b: Option<Bucket>, l: Limit, calls: seq<Call>)
    requires l.Valid()
    decreases |calls|
  {
    calls == [] ||
    var (b', out) := Charge(b, l, calls[0].now, calls[0].cost);
    !out.allowed && AllDenied(Some(b'), l, calls[1..])
  }

  lemma {:induction false} PollingOnlyRefills(b: Option<Bucket>, l: Limit, polls: seq<Call>, t: real)
    requires l.Valid() && Fits(b, l) && CostsNonNegative(polls) && Ordered(b, polls) && AllDenied(b, l, polls)
    requires b.Some? ==> b.value.ts <= t
    requires forall i :: 0 <= i < |polls| ==> polls[i].now <= t
    ensures Available(After(b, l, polls), l, t) == Available(b, l, t)
    decreases |polls|
  {
    hide Limit.Earned, Limit.SecondsFor, Available;
    if polls != [] {
      ChargeFits(b, l, polls[0].now, polls[0].cost);
      RefillComposes(b, l, polls[0].now, t);
      PollingOnlyRefills(Some(Charge(b, l, polls[0].now, polls[0].cost).0), l, polls[1..], t);
    }
  }

  // Waiting w seconds earns w * rate tokens; compare with the shortfall.
  lemma WaitAgainstShortfall(short: real, l: Limit, w: real)
    requires l.Valid()
    ensures w >= l.SecondsFor(short) as real ==> l.Earned(w) >= short
    ensures w <= l.SecondsFor(short) as real - 1.0 ==> l.Earned(w) < short
  {
    var q := short / l.rate;
    assert l.Earned(q) == short;
    if w >= q {
      EarnedFacts(l, q, w - q);
    } else {
      assert (q - w) * l.rate > 0.0;
      EarnedFacts(l, w, q - w);
    }
  }

  // The bucket a denial leaves behind, asked again after some wait.
  lemma RetryOnce(denied: Bucket, l: Limit, cost: real, t': real)
    requires l.Valid() && denied.tokens < cost && denied.tokens <= l.capacity && denied.ts <= t'
    ensures var n := l.SecondsFor(cost - denied.tokens) as real;
            && (t' >= denied.ts + n ==> (Available(Some(denied), l, t') >= cost <==> cost <= l.capacity))
            && (t' <= denied.ts + n - 1.0 ==> Available(Some(denied), l, t') < cost)
  {
    hide Limit.Earned, Limit.SecondsFor;
    WaitAgainstShortfall(cost - denied.tokens, l, t' - denied.ts);
  }

  /**
    After a denial at time t, and after any amount of denied polling, the same call made
    retry_after seconds later or more is allowed exactly when its cost fits the bucket at all;
    made a second earlier than that, or before, it is denied.
   */
  lemma RetryAfterIsExact(b: Option<Bucket>, l: Limit, t: real, cost: real, polls: seq<Call>, t': real)
    requires l.Valid() && Fits(b, l) && cost >= 0.0 && CostsNonNegative(polls)
    requires b.Some? ==> b.value.ts <= t
    requires !Charge(b, l, t, cost).1.allowed
    requires var denied := Some(Charge(b, l, t, cost).0);
             Ordered(denied, polls) && AllDenied(denied, l, polls)
    requires t <= t' && forall i :: 0 <= i < |polls| ==> polls[i].now <= t'
    ensures var (denied, out) := Charge(b, l, t, cost);
            var again := Charge(After(Some(denied), l, polls), l, t', cost).1;
            && (t' >= t + out.retryAfter as real ==> (again.allowed <==> cost <= l.capacity))
            && (t' <= t + out.retryAfter as real - 1.0 ==> !again.allowed)
  {
    hide Limit.Earned, Limit.SecondsFor, Available;
    var (denied, out) := Charge(b, l, t, cost);
    ChargeFits(b, l, t, cost);
    PollingOnlyRefills(Some(denied), l, polls, t');
    RetryOnce(denied, l, cost, t');
  }

  /** One check_caller call on its two buckets, with a clock reading for each. */
  function CallerCharge(mb: Option<Bucket>, hb: Option<Bucket>, m: Limit, h: Limit, tm: real, th: real)
    : (Option<Bucket>, Option<Bucket>, Outcome)
    requires m.Valid() && h.Valid()
  {
    var (mb', mOut) := Charge(mb, m, tm, 1.0);
    if mOut.allowed then
      var (hb', hOut) := Charge(hb, h, th, 1.0);
      (Some(mb'), Some(hb'), hOut)
    else (Some(mb'), hb, mOut)
  }

  /**
    A caller that waits the retry_after of an hour denial gets past the hour bucket, and is allowed
    exactly when the minute bucket has made good the token that the denied call spent.
   */
  lemma HourDenialRetry(mb: Option<Bucket>, hb: Option<Bucket>, m: Limit, h: Limit,
                        tm: real, th: real, tm': real, th': real)
    requires m.Valid() && h.Valid() && Fits(mb, m) && Fits(hb, h) && h.capacity >= 1.0
    requires (mb.Some? ==> mb.value.ts <= tm) && (hb.Some? ==> hb.value.ts <= th)
    requires Charge(mb, m, tm, 1.0).1.allowed && !Charge(hb, h, th, 1.0).1.allowed
    requires var (_, _, out) := CallerCharge(mb, hb, m, h, tm, th);
             tm <= tm' && th + out.retryAfter as real <= th'
    ensures var (mb', hb', out) := CallerCharge(mb, hb, m, h, tm, th);
            CallerCharge(mb', hb', m, h, tm', th').2.allowed
            <==> Available(mb, m, tm) - 1.0 + m.Earned(tm' - tm) >= 1.0
  {
    var hOut := Charge(hb, h, th, 1.0).1;
    hide Limit.Earned, Limit.SecondsFor;
    RetryWaits(hb, h, th, 1.0);
    RetryAfterIsExact(hb, h, th, 1.0, [], th');
    ChargeFits(mb, m, tm, 1.0);
  }

  /** After a minute denial it gets past the minute bucket, and the hour bucket decides. */
  lemma MinuteDenialRetry(mb: Option<Bucket>, hb: Option<Bucket>, m: Limit, h: Limit,
                          tm: real, th: real, tm': real, th': real)
    requires m.Valid() && h.Valid() && Fits(mb, m) && Fits(hb, h) && m.capacity >= 1.0
    requires mb.Some? ==> mb.value.ts <= tm
    requires !Charge(mb, m, tm, 1.0).1.allowed
    requires var (_, _, out) := CallerCharge(mb, hb, m, h, tm, th);
             tm + out.retryAfter as real <= tm'
    ensures var (mb', hb', out) := CallerCharge(mb, hb, m, h, tm, th);
            CallerCharge(mb', hb', m, h, tm', th').2.allowed <==> Available(hb, h, th') >= 1.0
  {
    hide Limit.Earned, Limit.SecondsFor;
    RetryWaits(mb, m, tm, 1.0);
    RetryAfterIsExact(mb, m, tm, 1.0, [], tm');
  }

  // A denial asks for a wait of at least one second.
  lemma RetryWaits(b: Option<Bucket>, l: Limit, t: real, cost: real)
    requires l.Valid() && !Charge(b, l, t, cost).1.allowed
    ensures Charge(b, l, t, cost).1.retryAfter >= 1
  {
    var short := cost - Available(b, l, t);
    assert short / l.rate > 0.0;
  }

  /**
    One call a minute and one an hour: admitted at 0, denied half a second short of the hour with a
    retry_after of 1, and denied again a second later, by the minute bucket.
   */
  lemma WaitingRetryAfterCanFail()
    ensures var (m1, h1, first) := CallerCharge(None, None, PerMinute(1), PerHour(1), 0.0, 0.0);
            var (m2, h2, second) := CallerCharge(m1, h1, PerMinute(1), PerHour(1), 3599.5, 3599.5);
            var (_, _, third) := CallerCharge(m2, h2, PerMinute(1), PerHour(1), 3600.5, 3600.5);
            first.allowed && second == Outcome(false, 1) && !third.allowed
  {
    var m, h := PerMinute(1), PerHour(1);
    var (m1, h1, first) := CallerCharge(None, None, m, h, 0.0, 0.0);
    assert m1 == Some(Bucket(0.0, 0.0)) && h1 == Some(Bucket(0.0, 0.0));
    assert m.Earned(3599.5) >= 1.0 && h.Earned(3599.5) == 3599.5 / 3600.0;
    assert Available(m1, m, 3599.5) == 1.0 && Available(h1, h, 3599.5) == 3599.5 / 3600.0;
    assert (1.0 - 3599.5 / 3600.0) / h.rate == 0.5;
    var (m2, h2, second) := CallerCharge(m1, h1, m, h, 3599.5, 3599.5);
    assert second == Outcome(false, 1);
    assert m.Earned(1.0) == 1.0 / 60.0;
    HourDenialRetry(m1, h1, m, h, 3599.5, 3599.5, 3600.5, 3600.5);
  }

  /* ---------- Key expiry ---------- */

  /** A call on some key, or the store dropping a key whose time to live is over. */
  datatype StoreEvent = Use(key: string, now: real, cost: real) | Purge(key: string, now: real)

  function RunExpiring(store: map<string, Entry>, limits: string -> Limit, evs: seq<StoreEvent>): seq<Outcome>
    requires forall k :: limits(k).Valid()
    decreases |evs|
  {
    if evs == [] then []
    else match evs[0]
      case Use(k, now, cost) =>
        [Charge(Lookup(store, k, now), limits(k), now, cost).1]
        + RunExpiring(Write(store, k, limits(k), now, cost), limits, evs[1..])
      case Purge(k, now) =>
        RunExpiring(if k in store && store[k].expiresAt <= now then store - {k} else store, limits, evs[1..])
  }

  /** The same run on a store that never forgets a key. */
  function RunForever(store: map<string, Bucket>, limits: string -> Limit, evs: seq<StoreEvent>): seq<Outcome>
    requires forall k :: limits(k).Valid()
    decreases |evs|
  {
    if evs == [] then []
    else match evs[0]
      case Use(k, now, cost) =>
        var (b, out) := Charge(if k in store then Some(store[k]) else None, limits(k), now, cost);
        [out] + RunForever(store[k := b], limits, evs[1..])
      case Purge(_, _) => RunForever(store, limits, evs[1..])
  }

  predicate EventsOrdered(evs: seq<StoreEvent>) {
    && (forall i, j :: 0 <= i < j < |evs| ==> evs[i].now <= evs[j].now)
    && (forall i :: 0 <= i < |evs| && evs[i].Use? ==> evs[i].cost >= 0.0)
  }

  // A key is in both stores with the same bucket, or has outlived its time to live.
  ghost predicate SameButExpired(store: map<string, Entry>, kept: map<string, Bucket>, limits: string -> Limit,
                                 now: real)
    requires forall k :: limits(k).Valid()
  {
    && store.Keys <= kept.Keys
    && forall k :: k in kept ==>
         && Fits(Some(kept[k]), limits(k))
         && (k in store ==> store[k] == Entry(kept[k], kept[k].ts + limits(k).Ttl()))
         && (k !in store ==> kept[k].ts + limits(k).Ttl() <= now)
  }

  // A bucket left alone for its whole time to live is full again.
  lemma ExpiredIsFull(b: Bucket, l: Limit, now: real)
    requires l.Valid() && Fits(Some(b), l) && b.ts + l.Ttl() <= now
    ensures Available(Some(b), l, now) == l.capacity
  {
    var q := l.capacity / l.rate;
    assert l.Earned(q) == l.capacity;
    EarnedFacts(l, q, now - b.ts - q);
  }

  lemma {:induction false} ExpiryInvisibleFrom(store: map<string, Entry>, kept: map<string, Bucket>,
                                               limits: string -> Limit, evs: seq<StoreEvent>, now: real)
    requires forall k :: limits(k).Valid()
    requires EventsOrdered(evs) && forall i :: 0 <= i < |evs| ==> now <= evs[i].now
    requires SameButExpired(store, kept, limits, now)
    ensures RunExpiring(store, limits, evs) == RunForever(kept, limits, evs)
    decreases |evs|
  {
    hide Limit.Earned, Limit.SecondsFor, Limit.Ttl;
    if evs != [] {
      var e := evs[0];
      var k, l := e.key, limits(e.key);
      if e.Use? {
        if k in kept && Lookup(store, k, e.now).None? {
          ExpiredIsFull(kept[k], l, e.now);
        }
        var held := if k in kept then Some(kept[k]) else None;
        assert Charge(Lookup(store, k, e.now), l, e.now, e.cost) == Charge(held, l, e.now, e.cost);
        ChargeFits(held, l, e.now, e.cost);
        ExpiryInvisibleFrom(Write(store, k, l, e.now, e.cost), kept[k := Charge(held, l, e.now, e.cost).0],
                            limits, evs[1..], e.now);
      } else {
        ExpiryInvisibleFrom(if k in store && store[k].expiresAt <= e.now then store - {k} else store, kept,
                            limits, evs[1..], e.now);
      }
    }
  }

  /** Expiring keys, lazily or by active purging, never changes an allow/deny decision or a retry_after. */
  lemma ExpiryIsInvisible(limits: string -> Limit, evs: seq<StoreEvent>)
    requires forall k :: limits(k).Valid()
    requires EventsOrdered(evs)
    ensures RunExpiring(map[], limits, evs) == RunForever(map[], limits, evs)
  {
    if evs != [] {
      ExpiryInvisibleFrom(map[], map[], limits, evs, evs[0].now);
    }
  }

  /* ---------- Concurrent check_caller calls ---------- */

  /**
    The two awaits of one check_caller call; calls of the same caller may interleave freely with
    each other and with any other use of the store.
   */
  datatype CallerStep =
    | MinuteStep(id: nat, now: real)
    | HourStep(id: nat, now: real)
    | OtherUse(key: string, limit: Limit, cost: real, now: real)

  /** Whose calls are counted, and the limits of the two buckets. */
  datatype Caller = Caller(keyId: string, m: Limit, h: Limit) {
    predicate Valid() { m.Valid() && h.Valid() }
  }

  /** The store, and when each call passed the minute bucket and was finally admitted. */
  datatype CallerState = CallerState(
    store: map<string, Entry>,
    started: set<nat>, waiting: set<nat>, passed: map<nat, real>, admitted: map<nat, real>)

  const IDLE := CallerState(map[], {}, {}, map[], map[])

  predicate Enabled(s: CallerState, c: Caller, e: CallerStep) {
    match e
    case MinuteStep(id, _) => id !in s.started
    case HourStep(id, _) => id in s.waiting
    case OtherUse(key, l, _, _) => l.Valid() && key != MinuteKey(c.keyId) && key != HourKey(c.keyId)
  }

  // Any use by another caller may come in between.
  lemma OthersMayInterleave(s: CallerState, c: Caller, u: BucketUse, l: Limit, cost: real)
    requires u.keyId != c.keyId && l.Valid()
    ensures Enabled(s, c, OtherUse(u.Key(), l, cost, u.now))
  {
    KeysApart(c.keyId, u.keyId);
    assert MinuteKey(c.keyId) in {MinuteKey(c.keyId), HourKey(c.keyId)};
    assert HourKey(c.keyId) in {MinuteKey(c.keyId), HourKey(c.keyId)};
    assert u.Key() in {MinuteKey(u.keyId), HourKey(u.keyId)};
  }

  function CallerNext(s: CallerState, c: Caller, e: CallerStep): CallerState
    requires c.Valid() && Enabled(s, c, e)
  {
    match e
    case MinuteStep(id, now) =>
      var out := Charge(Lookup(s.store, MinuteKey(c.keyId), now), c.m, now, 1.0).1;
      var s' := s.(store := Write(s.store, MinuteKey(c.keyId), c.m, now, 1.0), started := s.started + {id});
      if out.allowed then s'.(waiting := s.waiting + {id}, passed := s.passed[id := now]) else s'
    case HourStep(id, now) =>
      var out := Charge(Lookup(s.store, HourKey(c.keyId), now), c.h, now, 1.0).1;
      var s' := s.(store := Write(s.store, HourKey(c.keyId), c.h, now, 1.0), waiting := s.waiting - {id});
      if out.allowed then s'.(admitted := s.admitted[id := now]) else s'
    case OtherUse(key, l, cost, now) => s.(store := Write(s.store, key, l, now, cost))
  }

  predicate CallerRunLegal(s: CallerState, c: Caller, steps: seq<CallerStep>)
    requires c.Valid()
    decreases |steps|
  {
    steps == [] || (Enabled(s, c, steps[0]) && CallerRunLegal(CallerNext(s, c, steps[0]), c, steps[1..]))
  }

  function CallerRun(s: CallerState, c: Caller, steps: seq<CallerStep>): CallerState
    requires c.Valid() && CallerRunLegal(s, c, steps)
    decreases |steps|
  {
    if steps == [] then s else CallerRun(CallerNext(s, c, steps[0]), c, steps[1..])
  }

  predicate StepsOrdered(steps: seq<CallerStep>) {
    forall i, j :: 0 <= i < j < |steps| ==> steps[i].now <= steps[j].now
  }

  // The ids recorded at a time in [from, to].
  function Within(times: map<nat, real>, from: real, to: real): set<nat> {
    set id | id in times && from <= times[id] <= to
  }

  /** The calls that passed the minute bucket no earlier than `from` and were admitted by `to`. */
  function Served(s: CallerState, from: real, to: real): set<nat> {
    set id | id in s.admitted && (id in s.passed ==> from <= s.passed[id]) && s.admitted[id] <= to
  }

  // `n` tokens were taken in the window so far; what is left in the bucket still fits the budget.
  ghost predicate Budget(b: Option<Bucket>, l: Limit, n: real, from: real, to: real, now: real)
    requires l.Valid()
  {
    && Fits(b, l)
    && (b.None? ==> n == 0.0)
    && (b.Some? ==>
        && b.value.ts <= now
        && (b.value.ts < from ==> n == 0.0)
        && (from <= b.value.ts <= to ==> n + b.value.tokens <= l.capacity + l.Earned(b.value.ts - from)))
    && n <= l.capacity + l.Earned(to - from)
  }

  lemma BudgetStep(b: Option<Bucket>, l: Limit, n: real, from: real, to: real, t: real, now: real)
    requires l.Valid() && from <= to && t <= now
    requires Budget(b, l, n, from, to, t)
    ensures var (b', out) := Charge(b, l, now, 1.0);
            Budget(Some(b'), l, if out.allowed && from <= now <= to then n + 1.0 else n, from, to, now)
  {
    hide Limit.Earned, Limit.SecondsFor;
    ChargeFits(b, l, now, 1.0);
    if from <= now <= to {
      EarnedFacts(l, now - from, to - now);
      if b.Some? && from <= b.value.ts {
        EarnedFacts(l, b.value.ts - from, now - b.value.ts);
      }
    }
  }

  // The bucket last written under a key, expired or not.
  function Held(store: map<string, Entry>, key: string): Option<Bucket> {
    if key in store then Some(store[key].bucket) else None
  }

  ghost predicate KeyInv(store: map<string, Entry>, key: string, l: Limit, n: nat, from: real, to: real, now: real)
    requires l.Valid()
  {
    && Budget(Held(store, key), l, n as real, from, to, now)
    && (key in store ==> store[key].expiresAt == store[key].bucket.ts + l.Ttl())
  }

  // Using a key, expired or not, charges the bucket last written and keeps its budget.
  lemma UseKeeps(store: map<string, Entry>, key: string, l: Limit, n: nat, from: real, to: real, t: real, now: real)
    requires l.Valid() && from <= to && t <= now && KeyInv(store, key, l, n, from, to, t)
    ensures var allowed := Charge(Lookup(store, key, now), l, now, 1.0).1.allowed;
            KeyInv(Write(store, key, l, now, 1.0), key, l,
                   if allowed && from <= now <= to then n + 1 else n, from, to, now)
  {
    hide Limit.Earned, Limit.SecondsFor, Limit.Ttl;
    var held := Held(store, key);
    if held.Some? && Lookup(store, key, now).None? {
      ExpiredIsFull(held.value, l, now);
    }
    assert Charge(Lookup(store, key, now), l, now, 1.0) == Charge(held, l, now, 1.0);
    BudgetStep(held, l, n as real, from, to, t, now);
  }

  // Using another key, or the passing of time, keeps the budget too.
  lemma OtherKeeps(store: map<string, Entry>, key: string, l: Limit, n: nat, from: real, to: real, t: real, now: real,
                   other: string, entry: Entry)
    requires l.Valid() && t <= now && KeyInv(store, key, l, n, from, to, t) && other != key
    ensures KeyInv(store[other := entry], key, l, n, from, to, now)
  {
    hide Limit.Earned, Limit.Ttl;
  }

  ghost predicate CallerInv(s: CallerState, c: Caller, from: real, to: real, now: real)
    requires c.Valid()
  {
    && s.passed.Keys <= s.started && s.waiting <= s.passed.Keys && s.admitted.Keys <= s.passed.Keys
    && s.admitted.Keys !! s.waiting
    && (forall id :: id in s.passed ==> s.passed[id] <= now)
    && (forall id :: id in s.admitted ==> s.passed[id] <= s.admitted[id])
    && KeyInv(s.store, MinuteKey(c.keyId), c.m, |Within(s.passed, from, to)|, from, to, now)
    && KeyInv(s.store, HourKey(c.keyId), c.h, |Within(s.admitted, from, to)|, from, to, now)
  }

  // Recording one more id moves the count by one inside the window and not at all outside.
  lemma WithinGrows(times: map<nat, real>, id: nat, now: real, from: real, to: real)
    requires id !in times
    ensures |Within(times[id := now], from, to)| == |Within(times, from, to)| + if from <= now <= to then 1 else 0
  {
    var before, later := Within(times, from, to), Within(times[id := now], from, to);
    if from <= now <= to {
      assert later == before + {id};
    } else {
      assert later == before;
    }
  }

  lemma CallerStepKeeps(s: CallerState, c: Caller, e: CallerStep, from: real, to: real, t: real)
    requires c.Valid() && from <= to && t <= e.now
    requires CallerInv(s, c, from, to, t) && Enabled(s, c, e)
    ensures CallerInv(CallerNext(s, c, e), c, from, to, e.now)
  {
    hide Charge, Within, KeyInv, MinuteKey, HourKey, Lookup, Limit.Ttl;
    var mk, hk, store' := MinuteKey(c.keyId), HourKey(c.keyId), CallerNext(s, c, e).store;
    KeysDiffer(c.keyId);
    var passed, admitted := |Within(s.passed, from, to)|, |Within(s.admitted, from, to)|;
    match e
    case MinuteStep(id, now) =>
      UseKeeps(s.store, mk, c.m, passed, from, to, t, now);
      OtherKeeps(s.store, hk, c.h, admitted, from, to, t, now, mk, store'[mk]);
      WithinGrows(s.passed, id, now, from, to);
    case HourStep(id, now) =>
      UseKeeps(s.store, hk, c.h, admitted, from, to, t, now);
      OtherKeeps(s.store, mk, c.m, passed, from, to, t, now, hk, store'[hk]);
      WithinGrows(s.admitted, id, now, from, to);
    case OtherUse(key, _, _, now) =>
      OtherKeeps(s.store, mk, c.m, passed, from, to, t, now, key, store'[key]);
      OtherKeeps(s.store, hk, c.h, admitted, from, to, t, now, key, store'[key]);
  }

  lemma {:induction false} CallerRunKeeps(s: CallerState, c: Caller, steps: seq<CallerStep>, from: real, to: real,
                                          t: real)
    returns (now: real)
    requires c.Valid() && from <= to
    requires CallerInv(s, c, from, to, t) && CallerRunLegal(s, c, steps)
    requires StepsOrdered(steps) && forall i :: 0 <= i < |steps| ==> t <= steps[i].now
    ensures CallerInv(CallerRun(s, c, steps), c, from, to, now)
    decreases |steps|
  {
    hide CallerInv, CallerNext;
    now := t;
    if steps != [] {
      CallerStepKeeps(s, c, steps[0], from, to, t);
      now := CallerRunKeeps(CallerNext(s, c, steps[0]), c, steps[1..], from, to, steps[0].now);
    }
  }

  /**
    However concurrent check_caller calls interleave, on a store whose keys expire and that others
    use too, a window of T seconds sees at most capacity + rate * T calls pass the minute bucket, at
    most as many for the hour bucket admitted, and so at most either many begun and admitted in it.
   */
  lemma CallerWindowBound(c: Caller, steps: seq<CallerStep>, from: real, to: real)
    requires c.Valid() && from <= to
    requires StepsOrdered(steps) && CallerRunLegal(IDLE, c, steps)
    ensures var s := CallerRun(IDLE, c, steps);
            var served := |Served(s, from, to)| as real;
            && |Within(s.passed, from, to)| as real <= c.m.capacity + c.m.Earned(to - from)
            && |Within(s.admitted, from, to)| as real <= c.h.capacity + c.h.Earned(to - from)
            && served <= c.m.capacity + c.m.Earned(to - from)
            && served <= c.h.capacity + c.h.Earned(to - from)
  {
    hide Limit.Earned, CallerNext, Charge;
    var start := if steps == [] then 0.0 else steps[0].now;
    IdleFits(c, from, to, start);
    var _ := CallerRunKeeps(IDLE, c, steps, from, to, start);
    var s := CallerRun(IDLE, c, steps);
    SubsetCount(Served(s, from, to), Within(s.passed, from, to));
    SubsetCount(Served(s, from, to), Within(s.admitted, from, to));
  }

  /* ---------- All admissions in a window ---------- */

  /** The calls admitted in the window that had passed the minute bucket before it. */
  function Straddling(s: CallerState, from: real, to: real): set<nat> {
    set id | id in s.admitted && from <= s.admitted[id] <= to && id in s.passed && s.passed[id] < from
  }

  // No call is admitted that did not pass, nor before it passed.
  lemma AdmittedAfterPassing(c: Caller, steps: seq<CallerStep>)
    requires c.Valid() && StepsOrdered(steps) && CallerRunLegal(IDLE, c, steps)
    ensures var s := CallerRun(IDLE, c, steps);
            forall id :: id in s.admitted ==> id in s.passed && s.passed[id] <= s.admitted[id]
  {
    hide CallerNext, KeyInv;
    var start := if steps == [] then 0.0 else steps[0].now;
    IdleFits(c, start, start, start);
    var _ := CallerRunKeeps(IDLE, c, steps, start, start, start);
  }

  /** Whatever is admitted in a window beyond the minute bound was between its two buckets when it began. */
  lemma AdmittedBound(c: Caller, steps: seq<CallerStep>, from: real, to: real)
    requires c.Valid() && from <= to
    requires StepsOrdered(steps) && CallerRunLegal(IDLE, c, steps)
    ensures var s := CallerRun(IDLE, c, steps);
            var admitted := |Within(s.admitted, from, to)| as real;
            && admitted <= c.m.capacity + c.m.Earned(to - from) + |Straddling(s, from, to)| as real
            && admitted <= c.h.capacity + c.h.Earned(to - from)
  {
    hide Limit.Earned, CallerRun, CallerRunLegal;
    CallerWindowBound(c, steps, from, to);
    AdmittedAfterPassing(c, steps);
    var s := CallerRun(IDLE, c, steps);
    var straddling := Straddling(s, from, to);
    SubsetCount(Within(s.admitted, from, to) - straddling, Within(s.passed, from, to));
    assert Within(s.admitted, from, to) == (Within(s.admitted, from, to) - straddling) + straddling;
  }

  lemma {:induction false} RunConcatenates(s: CallerState, c: Caller, before: seq<CallerStep>, later: seq<CallerStep>)
    requires c.Valid() && CallerRunLegal(s, c, before + later)
    ensures CallerRunLegal(s, c, before) && CallerRunLegal(CallerRun(s, c, before), c, later)
    ensures CallerRun(s, c, before + later) == CallerRun(CallerRun(s, c, before), c, later)
    decreases |before|
  {
    hide CallerNext, Enabled;
    if before == [] {
      assert before + later == later;
    } else {
      assert (before + later)[0] == before[0] && (before + later)[1..] == before[1..] + later;
      RunConcatenates(CallerNext(s, c, before[0]), c, before[1..], later);
    }
  }

  // Calls admitted or passed by steps before `from` stay where they are; later ones are stamped later.
  lemma {:induction false} OnlyWaitingStraddle(s: CallerState, c: Caller, steps: seq<CallerStep>, from: real,
                                               waiting: set<nat>)
    requires c.Valid() && CallerRunLegal(s, c, steps)
    requires forall i :: 0 <= i < |steps| ==> from <= steps[i].now
    requires forall id :: id in s.waiting && id !in waiting ==> id in s.passed && from <= s.passed[id]
    requires forall id :: id in s.admitted && id !in waiting && id in s.passed && s.passed[id] < from ==>
        s.admitted[id] < from
    requires s.passed.Keys <= s.started && s.admitted.Keys <= s.passed.Keys && s.waiting <= s.passed.Keys
    ensures var t := CallerRun(s, c, steps);
            forall id :: id in t.admitted && id !in waiting && id in t.passed && t.passed[id] < from ==>
                t.admitted[id] < from
    decreases |steps|
  {
    hide Charge, Write;
    if steps != [] {
      OnlyWaitingStraddle(CallerNext(s, c, steps[0]), c, steps[1..], from, waiting);
    }
  }

  lemma {:induction false} StampsBefore(s: CallerState, c: Caller, steps: seq<CallerStep>, from: real)
    requires c.Valid() && CallerRunLegal(s, c, steps)
    requires forall i :: 0 <= i < |steps| ==> steps[i].now < from
    requires forall id :: id in s.admitted ==> s.admitted[id] < from
    requires s.passed.Keys <= s.started && s.admitted.Keys <= s.passed.Keys && s.waiting <= s.passed.Keys
    ensures var t := CallerRun(s, c, steps);
            && (forall id :: id in t.admitted ==> t.admitted[id] < from)
            && t.passed.Keys <= t.started && t.admitted.Keys <= t.passed.Keys && t.waiting <= t.passed.Keys
    decreases |steps|
  {
    hide Charge, Write;
    if steps != [] {
      StampsBefore(CallerNext(s, c, steps[0]), c, steps[1..], from);
    }
  }

  /**
    All calls admitted in a window obey the hour bound, and the minute bound up to the number of calls
    that were waiting between their two buckets when the window began.
   */
  lemma WaitingCallsBound(c: Caller, before: seq<CallerStep>, later: seq<CallerStep>, from: real, to: real)
    requires c.Valid() && from <= to
    requires StepsOrdered(before + later) && CallerRunLegal(IDLE, c, before + later)
    requires forall i :: 0 <= i < |before| ==> before[i].now < from
    requires forall i :: 0 <= i < |later| ==> from <= later[i].now
    ensures CallerRunLegal(IDLE, c, before)
    ensures var admitted := |Within(CallerRun(IDLE, c, before + later).admitted, from, to)| as real;
            && admitted <= c.m.capacity + c.m.Earned(to - from) + |CallerRun(IDLE, c, before).waiting| as real
            && admitted <= c.h.capacity + c.h.Earned(to - from)
  {
    hide Limit.Earned, CallerRun, CallerRunLegal;
    AdmittedBound(c, before + later, from, to);
    RunConcatenates(IDLE, c, before, later);
    StampsBefore(IDLE, c, before, from);
    var t, s := CallerRun(IDLE, c, before), CallerRun(IDLE, c, before + later);
    OnlyWaitingStraddle(t, c, later, from, t.waiting);
    SubsetCount(Straddling(s, from, to), t.waiting);
  }

  /** Every call that passes the minute bucket goes on to the hour bucket at once, at the same reading of the clock. */
  predicate Atomic(s: CallerState, c: Caller, steps: seq<CallerStep>)
    requires c.Valid() && CallerRunLegal(s, c, steps)
    decreases |steps|
  {
    && (s.waiting != {} ==>
          && steps != [] && steps[0].HourStep?
          && steps[0].id in s.passed && s.passed[steps[0].id] == steps[0].now)
    && (steps == [] || Atomic(CallerNext(s, c, steps[0]), c, steps[1..]))
  }

  // So far every call was admitted at the moment it passed.
  predicate StampsAgree(s: CallerState) {
    && s.waiting <= s.started
    && forall id :: id in s.admitted ==> id in s.started && id in s.passed && s.passed[id] == s.admitted[id]
  }

  lemma AtomicStepAgrees(s: CallerState, c: Caller, e: CallerStep)
    requires c.Valid() && Enabled(s, c, e) && StampsAgree(s)
    requires e.HourStep? ==> e.id in s.passed && s.passed[e.id] == e.now
    ensures StampsAgree(CallerNext(s, c, e))
  {
    hide Charge, Write;
  }

  lemma {:induction false} AtomicRunAgrees(s: CallerState, c: Caller, steps: seq<CallerStep>)
    requires c.Valid() && CallerRunLegal(s, c, steps) && Atomic(s, c, steps) && StampsAgree(s)
    ensures StampsAgree(CallerRun(s, c, steps))
    decreases |steps|
  {
    hide CallerNext, StampsAgree;
    if steps != [] {
      AtomicStepAgrees(s, c, steps[0]);
      AtomicRunAgrees(CallerNext(s, c, steps[0]), c, steps[1..]);
    }
  }

  lemma AtomicBound(c: Caller, steps: seq<CallerStep>, from: real, to: real)
    requires c.Valid() && from <= to
    requires StepsOrdered(steps) && CallerRunLegal(IDLE, c, steps) && Atomic(IDLE, c, steps)
    ensures var admitted := |Within(CallerRun(IDLE, c, steps).admitted, from, to)| as real;
            && admitted <= c.m.capacity + c.m.Earned(to - from)
            && admitted <= c.h.capacity + c.h.Earned(to - from)
  {
    hide Limit.Earned, CallerRun, CallerRunLegal, Atomic;
    AtomicRunAgrees(IDLE, c, steps);
    AdmittedBound(c, steps, from, to);
    assert Straddling(CallerRun(IDLE, c, steps), from, to) == {};
  }

  /** For atomic calls, all that are admitted in any T seconds obey both bounds. */
  lemma AtomicCallsBound(keyId: string, perMinute: nat, perHour: nat, steps: seq<CallerStep>, from: real, to: real)
    requires 0 < perMinute && 0 < perHour && from <= to
    requires var c := Caller(keyId, PerMinute(perMinute), PerHour(perHour));
             StepsOrdered(steps) && CallerRunLegal(IDLE, c, steps) && Atomic(IDLE, c, steps)
    ensures var c := Caller(keyId, PerMinute(perMinute), PerHour(perHour));
            var admitted := |Within(CallerRun(IDLE, c, steps).admitted, from, to)| as real;
            && admitted <= perMinute as real + perMinute as real * (to - from) / 60.0
            && admitted <= perHour as real + perHour as real * (to - from) / 3600.0
  {
    hide CallerRun, CallerRunLegal, Atomic, Within;
    AtomicBound(Caller(keyId, PerMinute(perMinute), PerHour(perHour)), steps, from, to);
    assert PerMinute(perMinute).Earned(to - from) == perMinute as real * (to - from) / 60.0;
    assert PerHour(perHour).Earned(to - from) == perHour as real * (to - from) / 3600.0;
  }

  /**
    The bounds in the limits' own terms, n per minute and k per hour, over any T seconds: on all calls
    admitted, on the minute side but for the straddling ones, and on those begun and admitted.
   */
  lemma CheckCallerBound(keyId: string, perMinute: nat, perHour: nat, steps: seq<CallerStep>, from: real, to: real)
    requires 0 < perMinute && 0 < perHour && from <= to
    requires var c := Caller(keyId, PerMinute(perMinute), PerHour(perHour));
             StepsOrdered(steps) && CallerRunLegal(IDLE, c, steps)
    ensures var s := CallerRun(IDLE, Caller(keyId, PerMinute(perMinute), PerHour(perHour)), steps);
            var minuteBound := perMinute as real + perMinute as real * (to - from) / 60.0;
            var hourBound := perHour as real + perHour as real * (to - from) / 3600.0;
            && |Within(s.admitted, from, to)| as real <= minuteBound + |Straddling(s, from, to)| as real
            && |Within(s.admitted, from, to)| as real <= hourBound
            && |Served(s, from, to)| as real <= minuteBound
            && |Served(s, from, to)| as real <= hourBound
  {
    hide Served, Within, Straddling, CallerRun, CallerRunLegal;
    var c := Caller(keyId, PerMinute(perMinute), PerHour(perHour));
    CallerWindowBound(c, steps, from, to);
    AdmittedBound(c, steps, from, to);
    assert c.m.Earned(to - from) == perMinute as real * (to - from) / 60.0;
    assert c.h.Earned(to - from) == perHour as real * (to - from) / 3600.0;
  }

  /* ---------- The bound is attained ---------- */

  /** Tokens that a use of the key at time t finds. */
  function OnHand(store: map<string, Entry>, key: string, l: Limit, t: real): real {
    Available(Lookup(store, key, t), l, t)
  }

  lemma UseTakesOne(store: map<string, Entry>, key: string, l: Limit, t: real)
    requires l.Valid() && OnHand(store, key, l, t) >= 1.0
    ensures Charge(Lookup(store, key, t), l, t, 1.0).1.allowed
    ensures OnHand(Write(store, key, l, t, 1.0), key, l, t) == OnHand(store, key, l, t) - 1.0
  {
    TtlPositive(l);
    EarnedFacts(l, 0.0, 0.0);
    hide Limit.Earned, Limit.SecondsFor, Limit.Ttl;
  }

  lemma TtlPositive(l: Limit)
    requires l.Valid()
    ensures l.Ttl() >= 60.0
  {
    assert l.capacity / l.rate >= 0.0;
  }

  lemma OtherKeysKept(store: map<string, Entry>, key: string, l: Limit, now: real, other: string)
    requires l.Valid() && other != key
    ensures other in Write(store, key, l, now, 1.0) <==> other in store
  {
    hide Charge;
  }

  lemma MinuteRefills(store: map<string, Entry>, key: string, n: nat, t: real)
    requires n > 0 && OnHand(store, key, PerMinute(n), t) >= 1.0
    ensures OnHand(Write(store, key, PerMinute(n), t, 1.0), key, PerMinute(n), t + 60.0) == n as real
  {
    var l := PerMinute(n);
    assert l.capacity / l.rate == 60.0;
    assert l.Earned(60.0) == n as real;
    hide Limit.Earned, Limit.SecondsFor;
  }

  lemma OneStep(s: CallerState, c: Caller, e: CallerStep)
    requires c.Valid() && Enabled(s, c, e)
    ensures CallerRunLegal(s, c, [e]) && CallerRun(s, c, [e]) == CallerNext(s, c, e)
  {
    hide CallerNext, Enabled;
    var s', rest := CallerNext(s, c, e), [e][1..];
    assert rest == [] && CallerRunLegal(s', c, rest) && CallerRun(s', c, rest) == s';
  }

  lemma RunAppends(s: CallerState, c: Caller, steps: seq<CallerStep>, e: CallerStep)
    requires c.Valid() && CallerRunLegal(s, c, steps) && Enabled(CallerRun(s, c, steps), c, e)
    ensures CallerRunLegal(s, c, steps + [e])
    ensures CallerRun(s, c, steps + [e]) == CallerNext(CallerRun(s, c, steps), c, e)
  {
    var t := CallerRun(s, c, steps);
    hide CallerNext, Enabled;
    OneStep(t, c, e);
    RunJoins(s, c, steps, [e]);
  }

  lemma {:induction false} RunJoins(s: CallerState, c: Caller, before: seq<CallerStep>, later: seq<CallerStep>)
    requires c.Valid() && CallerRunLegal(s, c, before) && CallerRunLegal(CallerRun(s, c, before), c, later)
    ensures CallerRunLegal(s, c, before + later)
    ensures CallerRun(s, c, before + later) == CallerRun(CallerRun(s, c, before), c, later)
    decreases |before|
  {
    hide CallerNext, Enabled;
    if before == [] {
      assert before + later == later;
    } else {
      assert (before + later)[0] == before[0] && (before + later)[1..] == before[1..] + later;
      RunJoins(CallerNext(s, c, before[0]), c, before[1..], later);
    }
  }

  /** The numbers below n. */
  function Ids(n: nat): set<nat> {
    if n == 0 then {} else Ids(n - 1) + {n - 1}
  }

  lemma {:induction false} IdsAre(n: nat)
    ensures |Ids(n)| == n && forall i: nat :: i in Ids(n) <==> i < n
  {
    if n > 0 {
      IdsAre(n - 1);
    }
  }

  /** n calls, a minute apart, that pass the minute bucket. */
  function EarlySteps(n: nat): (steps: seq<CallerStep>)
    ensures |steps| == n && forall i :: 0 <= i < n ==> steps[i] == MinuteStep(i, 60.0 * i as real)
  {
    seq(n, (i: nat) => MinuteStep(i, 60.0 * i as real))
  }

  /** k more in one instant. */
  function BurstSteps(n: nat, k: nat, t: real): (steps: seq<CallerStep>)
    ensures |steps| == k && forall i :: 0 <= i < k ==> steps[i] == MinuteStep(n + i, t)
  {
    seq(k, (i: nat) => MinuteStep(n + i, t))
  }

  /** The first k calls go on to the hour bucket. */
  function HourSteps(k: nat, t: real): (steps: seq<CallerStep>)
    ensures |steps| == k && forall i :: 0 <= i < k ==> steps[i] == HourStep(i, t)
  {
    seq(k, (i: nat) => HourStep(i, t))
  }

  // n calls wait before an untouched hour bucket, and the minute bucket has `tokens` at time t.
  predicate Queued(s: CallerState, c: Caller, n: nat, t: real, tokens: real) {
    && s.started == Ids(n) && s.waiting == Ids(n) && s.admitted == map[]
    && HourKey(c.keyId) !in s.store
    && OnHand(s.store, MinuteKey(c.keyId), c.m, t) == tokens
  }

  lemma QueueGrows(s: CallerState, c: Caller, n: nat, t: real, tokens: real)
    requires c.Valid() && Queued(s, c, n, t, tokens) && tokens >= 1.0
    ensures Enabled(s, c, MinuteStep(n, t))
    ensures var s' := CallerNext(s, c, MinuteStep(n, t));
            && Queued(s', c, n + 1, t, tokens - 1.0)
            && s'.store == Write(s.store, MinuteKey(c.keyId), c.m, t, 1.0)
  {
    KeysDiffer(c.keyId);
    UseTakesOne(s.store, MinuteKey(c.keyId), c.m, t);
    OtherKeysKept(s.store, MinuteKey(c.keyId), c.m, t, HourKey(c.keyId));
    hide Charge, Write, Lookup, OnHand, MinuteKey, HourKey;
    assert n !in Ids(n) && Ids(n + 1) == Ids(n) + {n} by {
      IdsAre(n);
    }
  }

  lemma {:induction false} EarlyRun(c: Caller, k: nat, n: nat)
    requires c.Valid() && k > 0 && c.m == PerMinute(k)
    ensures CallerRunLegal(IDLE, c, EarlySteps(n))
    ensures Queued(CallerRun(IDLE, c, EarlySteps(n)), c, n, 60.0 * n as real, k as real)
  {
    if n == 0 {
      assert EarlySteps(0) == [];
    } else {
      EarlyRun(c, k, n - 1);
      var t := 60.0 * (n - 1) as real;
      var steps, e := EarlySteps(n - 1), MinuteStep(n - 1, t);
      var s := CallerRun(IDLE, c, steps);
      assert EarlySteps(n) == steps + [e];
      QueueGrows(s, c, n - 1, t, k as real);
      assert OnHand(s.store, MinuteKey(c.keyId), c.m, t) == k as real;
      MinuteRefills(s.store, MinuteKey(c.keyId), k, t);
      RunAppends(IDLE, c, steps, e);
    }
  }

  lemma {:induction false} BurstRun(s: CallerState, c: Caller, n: nat, k: nat, t: real, tokens: real)
    requires c.Valid() && Queued(s, c, n, t, tokens) && tokens >= k as real
    ensures CallerRunLegal(s, c, BurstSteps(n, k, t))
    ensures Queued(CallerRun(s, c, BurstSteps(n, k, t)), c, n + k, t, tokens - k as real)
    decreases k
  {
    hide Queued, CallerNext;
    if k == 0 {
      assert BurstSteps(n, 0, t) == [];
    } else {
      BurstRun(s, c, n, k - 1, t, tokens);
      var steps, e := BurstSteps(n, k - 1, t), MinuteStep(n + k - 1, t);
      assert BurstSteps(n, k, t) == steps + [e];
      QueueGrows(CallerRun(s, c, steps), c, n + k - 1, t, tokens - (k - 1) as real);
      RunAppends(s, c, steps, e);
    }
  }

  // The first k of n queued calls have been admitted at time t.
  predicate Admitting(s: CallerState, c: Caller, n: nat, k: nat, t: real) {
    && s.waiting == Ids(n) - Ids(k)
    && s.admitted.Keys == Ids(k) && (forall i :: i in s.admitted ==> s.admitted[i] == t)
    && OnHand(s.store, HourKey(c.keyId), c.h, t) == c.h.capacity - k as real
  }

  lemma AdmitsOneMore(s: CallerState, c: Caller, n: nat, k: nat, t: real)
    requires c.Valid() && Admitting(s, c, n, k, t) && k < n && c.h.capacity >= n as real
    ensures Enabled(s, c, HourStep(k, t))
    ensures Admitting(CallerNext(s, c, HourStep(k, t)), c, n, k + 1, t)
  {
    UseTakesOne(s.store, HourKey(c.keyId), c.h, t);
    NextId(n, k);
    hide Charge, Write, Lookup, OnHand, MinuteKey, HourKey, Ids;
    var s' := CallerNext(s, c, HourStep(k, t));
    assert s'.admitted == s.admitted[k := t] && s'.waiting == s.waiting - {k};
  }

  lemma NextId(n: nat, k: nat)
    requires k < n
    ensures k in Ids(n) - Ids(k) && Ids(n) - Ids(k + 1) == Ids(n) - Ids(k) - {k} && Ids(k + 1) == Ids(k) + {k}
  {
    IdsAre(n);
    IdsAre(k);
  }

  lemma {:induction false} HourRun(s: CallerState, c: Caller, n: nat, k: nat, t: real)
    requires c.Valid() && Admitting(s, c, n, 0, t) && k <= n && c.h.capacity >= n as real
    ensures CallerRunLegal(s, c, HourSteps(k, t))
    ensures Admitting(CallerRun(s, c, HourSteps(k, t)), c, n, k, t)
    decreases k
  {
    hide Admitting, CallerNext;
    if k == 0 {
      assert HourSteps(0, t) == [];
    } else {
      HourRun(s, c, n, k - 1, t);
      var steps, e := HourSteps(k - 1, t), HourStep(k - 1, t);
      assert HourSteps(k, t) == steps + [e];
      AdmitsOneMore(CallerRun(s, c, steps), c, n, k - 1, t);
      RunAppends(s, c, steps, e);
    }
  }

  lemma {:induction false} StepTimes(w: nat, k: nat)
    ensures var t := 60.0 * w as real;
            var later := BurstSteps(w, k, t) + HourSteps(w + k, t);
            && StepsOrdered(EarlySteps(w) + later)
            && (forall i :: 0 <= i < w ==> EarlySteps(w)[i].now < t)
            && (forall i :: 0 <= i < |later| ==> later[i].now == t)
  {
  }

  /**
    The excess over the minute bound is attained for every limit and every number w of waiting calls:
    w calls pass the minute bucket a minute apart and are held up, then as many as the bucket holds
    pass at once, and all of them reach the hour bucket in that instant.
   */
  lemma HeldUpCallsExceedMinuteBound(keyId: string, perMinute: nat, w: nat)
    requires perMinute > 0
    ensures var c := Caller(keyId, PerMinute(perMinute), PerHour(w + perMinute));
            var t := 60.0 * w as real;
            var before, later := EarlySteps(w), BurstSteps(w, perMinute, t) + HourSteps(w + perMinute, t);
            && StepsOrdered(before + later)
            && (forall i :: 0 <= i < |before| ==> before[i].now < t)
            && (forall i :: 0 <= i < |later| ==> t <= later[i].now)
            && HeldUp(c, before, later, t, w, w + perMinute)
            && c.m.capacity + c.m.Earned(t - t) == perMinute as real
  {
    var c := Caller(keyId, PerMinute(perMinute), PerHour(w + perMinute));
    StepTimes(w, perMinute);
    HeldUpRun(c, perMinute, w, 60.0 * w as real);
    EarnedFacts(c.m, 0.0, 0.0);
    hide StepsOrdered, Limit.Earned, HeldUp;
  }

  // `waiting` calls wait after the first steps, and the later ones admit `admitted` calls at time t.
  predicate HeldUp(c: Caller, before: seq<CallerStep>, later: seq<CallerStep>, t: real, waiting: nat, admitted: nat)
    requires c.Valid()
  {
    && CallerRunLegal(IDLE, c, before) && |CallerRun(IDLE, c, before).waiting| == waiting
    && CallerRunLegal(IDLE, c, before + later)
    && |Within(CallerRun(IDLE, c, before + later).admitted, t, t)| == admitted
  }

  lemma HeldUpJoins(c: Caller, before: seq<CallerStep>, later: seq<CallerStep>, t: real, waiting: nat, admitted: nat)
    requires c.Valid() && CallerRunLegal(IDLE, c, before) && |CallerRun(IDLE, c, before).waiting| == waiting
    requires var s := CallerRun(IDLE, c, before);
             CallerRunLegal(s, c, later) && |Within(CallerRun(s, c, later).admitted, t, t)| == admitted
    ensures HeldUp(c, before, later, t, waiting, admitted)
  {
    hide CallerRun, CallerRunLegal, Within;
    RunJoins(IDLE, c, before, later);
  }

  lemma HeldUpRun(c: Caller, k: nat, w: nat, t: real)
    requires c.Valid() && k > 0 && c.m == PerMinute(k) && c.h.capacity >= (w + k) as real && t == 60.0 * w as real
    ensures HeldUp(c, EarlySteps(w), BurstSteps(w, k, t) + HourSteps(w + k, t), t, w, w + k)
  {
    EarlyRun(c, k, w);
    hide CallerRun, CallerRunLegal, Queued, Within, HeldUp;
    QueueReady(CallerRun(IDLE, c, EarlySteps(w)), c, w, t, k as real);
    QueueAdmitted(CallerRun(IDLE, c, EarlySteps(w)), c, w, k, t);
    HeldUpJoins(c, EarlySteps(w), BurstSteps(w, k, t) + HourSteps(w + k, t), t, w, w + k);
  }

  lemma QueueAdmitted(s: CallerState, c: Caller, w: nat, k: nat, t: real)
    requires c.Valid() && Queued(s, c, w, t, k as real) && c.h.capacity >= (w + k) as real
    ensures CallerRunLegal(s, c, BurstSteps(w, k, t) + HourSteps(w + k, t))
    ensures |Within(CallerRun(s, c, BurstSteps(w, k, t) + HourSteps(w + k, t)).admitted, t, t)| == w + k
  {
    hide CallerNext, CallerRun, CallerRunLegal, Enabled, Queued, Admitting, Within;
    BurstRun(s, c, w, k, t, k as real);
    var s' := CallerRun(s, c, BurstSteps(w, k, t));
    QueueReady(s', c, w + k, t, 0.0);
    HourRun(s', c, w + k, w + k, t);
    RunJoins(s, c, BurstSteps(w, k, t), HourSteps(w + k, t));
    AllAdmitted(CallerRun(s', c, HourSteps(w + k, t)), c, w + k, t);
  }

  lemma QueueReady(s: CallerState, c: Caller, n: nat, t: real, tokens: real)
    requires Queued(s, c, n, t, tokens)
    ensures |s.waiting| == n && Admitting(s, c, n, 0, t)
  {
    IdsAre(n);
  }

  lemma AllAdmitted(s: CallerState, c: Caller, n: nat, t: real)
    requires Admitting(s, c, n, n, t)
    ensures |Within(s.admitted, t, t)| == n
  {
    assert Within(s.admitted, t, t) == Ids(n);
    IdsAre(n);
  }

  lemma IdleFits(c: Caller, from: real, to: real, now: real)
    requires c.Valid() && from <= to
    ensures CallerInv(IDLE, c, from, to, now)
  {
    hide Limit.Earned, Budget;
    assert |Within(IDLE.passed, from, to)| == 0 && |Within(IDLE.admitted, from, to)| == 0;
    EmptyBudget(c.m, from, to, now);
    EmptyBudget(c.h, from, to, now);
  }

  lemma EmptyBudget(l: Limit, from: real, to: real, now: real)
    requires l.Valid() && from <= to
    ensures Budget(None, l, 0.0, from, to, now)
  {
    hide Limit.Earned;
    EarnedFacts(l, to - from, 0.0);
  }
}
