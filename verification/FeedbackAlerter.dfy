/**
  The hourly feedback alerter of app/workers/feedback_alerter.py.  Times are microseconds; sending
  an alert and recording it count as one step.
 */
module FeedbackAlerter {
  import opened Wrappers

  const HOUR: int := 3_600_000_000

  datatype Feedback = Feedback(createdAt: int, code: string)

  /** End of the previous full hour. */
  function WindowEnd(now: int): int { now - now % HOUR }

  predicate InWindow(r: Feedback, end: int) { end - HOUR <= r.createdAt < end }

  function RowsIn(rows: seq<Feedback>, end: int): seq<Feedback> {
    if rows == [] then []
    else (if InWindow(rows[0], end) then [rows[0]] else []) + RowsIn(rows[1..], end)
  }

  /** One pass: the clock, the settings, the feedback table and whether SMTP works, as found then. */
  datatype Pass = Pass(now: int, configured: bool, rows: seq<Feedback>, threshold: int, smtpWorks: bool)

  predicate Alerts(last: Option<int>, p: Pass) {
    && p.configured
    && (last.None? || last.value < WindowEnd(p.now))
    && |RowsIn(p.rows, WindowEnd(p.now))| >= p.threshold
    && p.smtpWorks
  }

  function Count(rows: seq<Feedback>, code: string): nat {
    if rows == [] then 0 else (if rows[|rows| - 1].code == code then 1 else 0) + Count(rows[..|rows| - 1], code)
  }

  method CountByCode(rows: seq<Feedback>) returns (counts: map<string, nat>)
    ensures forall c :: c in counts <==> exists r :: r in rows && r.code == c
    ensures forall c :: c in counts ==> counts[c] == Count(rows, c)
  {
    counts := map[];
    for i := 0 to |rows|
      invariant forall c :: c in counts <==> exists r :: r in rows[..i] && r.code == c
      invariant forall c :: c in counts ==> counts[c] == Count(rows[..i], c)
      invariant forall c :: c !in counts ==> Count(rows[..i], c) == 0
    {
      var code := rows[i].code;
      assert rows[..i + 1][..i] == rows[..i] && rows[..i + 1] == rows[..i] + [rows[i]];
      counts := counts[code := (if code in counts then counts[code] else 0) + 1];
    }
    assert rows[..|rows|] == rows;
  }

  /** The alerter_state row. */
  class AlerterState {
    var lastAlertAt: Option<int>
    var lastCount: nat

    constructor ()
      ensures lastAlertAt == None && lastCount == 0
    {
      lastAlertAt, lastCount := None, 0;
    }

    method RunOnce(p: Pass) returns (sent: bool, byCode: map<string, nat>)
      modifies this
      ensures sent <==>
                && p.configured && p.smtpWorks
                && (old(lastAlertAt) == None || old(lastAlertAt).value < WindowEnd(p.now))
                && |RowsIn(p.rows, WindowEnd(p.now))| >= p.threshold
      ensures sent <==> Alerts(old(lastAlertAt), p)
      ensures lastAlertAt == if sent then Some(WindowEnd(p.now)) else old(lastAlertAt)
      ensures lastCount == if sent then |RowsIn(p.rows, WindowEnd(p.now))| else old(lastCount)
      ensures var rows := RowsIn(p.rows, WindowEnd(p.now));
              sent ==>
                && (forall c :: c in byCode <==> exists r :: r in rows && r.code == c)
                && (forall c :: c in byCode ==> byCode[c] == Count(rows, c))
    {
      sent, byCode := false, map[];
      if !p.configured {
        return;
      }
      var end := WindowEnd(p.now);
      if lastAlertAt.Some? && lastAlertAt.value >= end {
        return;
      }
      var rows := RowsIn(p.rows, end);
      if |rows| < p.threshold {
        return;
      }
      byCode := CountByCode(rows);
      if !p.smtpWorks {
        return;
      }
      lastAlertAt, lastCount := Some(end), |rows|;
      sent := true;
    }
  }

  /* ---------- Sequences of passes ---------- */

  /** The passes that sent an alert, in order, at whatever clock readings. */
  function Sent(last: Option<int>, ps: seq<Pass>): seq<Pass>
    decreases |ps|
  {
    if ps == [] then []
    else if Alerts(last, ps[0]) then [ps[0]] + Sent(Some(WindowEnd(ps[0].now)), ps[1..])
    else Sent(last, ps[1..])
  }

  predicate EndsIncrease(sent: seq<Pass>) {
    forall i, j :: 0 <= i < j < |sent| ==> WindowEnd(sent[i].now) < WindowEnd(sent[j].now)
  }

  predicate EndsAfter(sent: seq<Pass>, last: Option<int>) {
    last.Some? ==> forall i :: 0 <= i < |sent| ==> last.value < WindowEnd(sent[i].now)
  }

  lemma {:induction false} SentEndsIncrease(last: Option<int>, ps: seq<Pass>)
    ensures EndsIncrease(Sent(last, ps)) && EndsAfter(Sent(last, ps), last)
    decreases |ps|
  {
    if ps != [] {
      SentEndsIncrease(if Alerts(last, ps[0]) then Some(WindowEnd(ps[0].now)) else last, ps[1..]);
    }
  }

  lemma WindowsDisjoint(n1: int, n2: int, r: Feedback)
    requires WindowEnd(n1) < WindowEnd(n2) && InWindow(r, WindowEnd(n1))
    ensures !InWindow(r, WindowEnd(n2))
  {
    assert WindowEnd(n1) == HOUR * (n1 / HOUR) && WindowEnd(n2) == HOUR * (n2 / HOUR);
  }

  lemma {:induction false} RowsInMembers(rows: seq<Feedback>, end: int, r: Feedback)
    ensures r in RowsIn(rows, end) <==> r in rows && InWindow(r, end)
  {
    if rows != [] {
      RowsInMembers(rows[1..], end, r);
    }
  }

  /** No hour is alerted twice and each feedback row is counted in at most one sent alert. */
  lemma RowsCountedOnce(ps: seq<Pass>, i: nat, j: nat, r: Feedback)
    requires i < j < |Sent(None, ps)|
    requires r in RowsIn(Sent(None, ps)[i].rows, WindowEnd(Sent(None, ps)[i].now))
    ensures WindowEnd(Sent(None, ps)[i].now) < WindowEnd(Sent(None, ps)[j].now)
    ensures r !in RowsIn(Sent(None, ps)[j].rows, WindowEnd(Sent(None, ps)[j].now))
  {
    var a, b := Sent(None, ps)[i], Sent(None, ps)[j];
    SentEndsIncrease(None, ps);
    RowsInMembers(a.rows, WindowEnd(a.now), r);
    RowsInMembers(b.rows, WindowEnd(b.now), r);
    WindowsDisjoint(a.now, b.now, r);
  }

  /** A pass counts exactly the rows created in the hour before its own, so in the next hour every pass counts a row. */
  lemma CountedInNextHour(rows: seq<Feedback>, r: Feedback, now: int)
    ensures r in RowsIn(rows, WindowEnd(now)) <==> r in rows && now / 3_600_000_000 == r.createdAt / 3_600_000_000 + 1
  {
    RowsInMembers(rows, WindowEnd(now), r);
    assert WindowEnd(now) == 3_600_000_000 * (now / 3_600_000_000);
    HourBefore(r.createdAt, now / 3_600_000_000);
  }

  lemma HourBefore(t: int, hour: int)
    ensures 3_600_000_000 * hour - 3_600_000_000 <= t < 3_600_000_000 * hour <==> hour == t / 3_600_000_000 + 1
  {
    var q := t / 3_600_000_000;
    assert 3_600_000_000 * q <= t < 3_600_000_000 * q + 3_600_000_000;
  }
}
