/**
  Case C end to end: the handler's case split (app/api/detect.py) and the attachment worker
  (app/workers/attachment_processor.py).

  Everything the worker awaits may succeed, raise or be cancelled; those fates are inputs.
 */
module AttachmentJob {
  import opened Wrappers
  import opened Policies
  import opened PolicyEngine
  import opened Detect

  /* ---------- One attachment ---------- */

  datatype Attachment = Attachment(id: string, filename: string)

  /** How fetching, scanning and extracting one attachment went. */
  datatype Extraction =
    | Extracted(content: Scanned)
    | NoPages
    | Refused(number: nat)
    | Broke
    | Interrupted

  datatype Result = Result(id: string, filename: string, verdict: Verdict, code: Code, detections: seq<Detection>)

  method DecideAttachmentCode(dets: seq<Detection>) returns (code: Code, verdict: Verdict)
    ensures verdict == VerdictOf(code)
    ensures code == if exists d :: d in dets && IsBlock(d.code) then BLOCK_2010 else OK_0000
  {
    var hasBlock := false;
    for i := 0 to |dets|
      invariant hasBlock <==> exists j :: 0 <= j < i && IsBlock(dets[j].code)
    {
      if IsBlock(dets[i].code) {
        hasBlock := true;
        break;
      }
    }
    code := if hasBlock then BLOCK_2010 else OK_0000;
    verdict := VerdictOf(code);
  }

  /** Some hit that top-3 keeps reaches the threshold; attachments are scanned without policy rows. */
  predicate HasBlockingHit(f: Scanned, s: Strictness) {
    exists h :: h in Kept(f) && h.score >= Threshold(s)
  }

  function FieldOf(a: Attachment): string { "attachment." + a.id }

  function ResultOf(a: Attachment, e: Extraction, s: Strictness): Result
    requires !e.Interrupted?
  {
    match e
    case Extracted(f) =>
      var code := if HasBlockingHit(f, s) then BLOCK_2010 else OK_0000;
      Result(a.id, a.filename, VerdictOf(code), code, Visible(Kept(f), FieldOf(a), s, []))
    case NoPages => Result(a.id, a.filename, Verdict.Pass, OK_0000, [])
    case Refused(n) => Result(a.id, a.filename, Verdict.Error, REQ(n), [])
    case Broke => Result(a.id, a.filename, Verdict.Error, REQ(4042), [])
  }

  lemma AttachmentBlocks(a: Attachment, f: Scanned, s: Strictness)
    ensures (exists d :: d in Visible(Kept(f), FieldOf(a), s, []) && IsBlock(d.code)) <==> HasBlockingHit(f, s)
  {
    hide Visible, Kept;
    var dets := Visible(Kept(f), FieldOf(a), s, []);
    VisibleBlocks(Kept(f), FieldOf(a), s, []);
    if d :| d in dets && IsBlock(d.code) {
      assert d.entity in BlockingTypes(Kept(f), s, []);
    } else {
      assert BlockTypes(dets) == {};
      assert forall h :: h in Kept(f) && Blocks(h, s, []) ==> h.entity in BlockingTypes(Kept(f), s, []);
    }
  }

  /**
    What a result says of its attachment: ERROR with the refusal's own code, or REQ-4042 for anything
    unexpected, and no detections; PASS for a scan without pages; otherwise one BLOCK-2010 detection
    for each kept hit at the threshold, and BLOCK iff there is one.
   */
  ghost predicate Describes(r: Result, a: Attachment, e: Extraction, s: Strictness) {
    && r.id == a.id && r.filename == a.filename && r.verdict == VerdictOf(r.code)
    && (r.verdict.Error? <==> e.Refused? || e.Broke?)
    && (e.Refused? ==> r.code == REQ(e.number) && r.detections == [])
    && (e.Broke? ==> r.code == REQ(4042) && r.detections == [])
    && (e.NoPages? ==> r.verdict.Pass? && r.code == OK_0000 && r.detections == [])
    && (e.Extracted? ==>
        && r.verdict == (if HasBlockingHit(e.content, s) then Verdict.Block else Verdict.Pass)
        && r.code == (if HasBlockingHit(e.content, s) then BLOCK_2010 else OK_0000)
        && OnePerHit(r.detections, a, e.content, s))
  }

  ghost predicate OnePerHit(dets: seq<Detection>, a: Attachment, f: Scanned, s: Strictness) {
    forall d :: d in dets <==>
      exists h :: h in Kept(f) && h.score >= Threshold(s)
                  && d == Detection("attachment." + a.id, h.entity, BLOCK_2010, h.score, h.start, h.end)
  }

  lemma ResultDescribes(a: Attachment, e: Extraction, s: Strictness)
    requires !e.Interrupted?
    ensures Describes(ResultOf(a, e, s), a, e, s)
  {
    if e.Extracted? {
      DetectionsOf(a, e.content, s);
    }
    hide Visible, Kept, Threshold, HasBlockingHit, OnePerHit;
  }

  lemma DetectionsOf(a: Attachment, f: Scanned, s: Strictness)
    ensures OnePerHit(Visible(Kept(f), FieldOf(a), s, []), a, f, s)
  {
    hide Visible, Kept, Judge, Threshold;
    forall d
      ensures d in Visible(Kept(f), FieldOf(a), s, []) <==>
                exists h :: h in Kept(f) && h.score >= Threshold(s)
                            && d == Detection("attachment." + a.id, h.entity, BLOCK_2010, h.score, h.start, h.end)
    {
      VisibleMembers(Kept(f), FieldOf(a), s, [], d);
      forall h
        ensures Judge(h, FieldOf(a), s, []) == if h.score >= Threshold(s) then Shown(BLOCK_2010) else Dropped
      {
        JudgedInAttachment(h, a, s);
      }
    }
  }

  lemma JudgedInAttachment(h: Hit, a: Attachment, s: Strictness)
    ensures Judge(h, FieldOf(a), s, []) == if h.score >= Threshold(s) then Shown(BLOCK_2010) else Dropped
  {
    assert "attachment" <= FieldOf(a);
  }

  /** The per-attachment pipeline: every failure but a cancellation becomes that attachment's result. */
  method ProcessOne(a: Attachment, e: Extraction, s: Strictness) returns (r: Option<Result>)
    ensures r == if e.Interrupted? then None else Some(ResultOf(a, e, s))
    ensures r.Some? ==> Describes(r.value, a, e, s)
  {
    if !e.Interrupted? {
      ResultDescribes(a, e, s);
    }
    hide Describes;
    match e
    case Interrupted => return None;
    case NoPages => return Some(Result(a.id, a.filename, Verdict.Pass, OK_0000, []));
    case Refused(n) => return Some(Result(a.id, a.filename, Verdict.Error, REQ(n), []));
    case Broke => return Some(Result(a.id, a.filename, Verdict.Error, REQ(4042), []));
    case Extracted(f) =>
      var dets, _ := AnalyzeField(f, FieldOf(a), s, []);
      var code, verdict := DecideAttachmentCode(dets);
      AttachmentBlocks(a, f, s);
      return Some(Result(a.id, a.filename, verdict, code, dets));
  }

  /* ---------- The overall verdict ---------- */

  function FirstBlock(results: seq<Result>): Option<Result> {
    if results == [] then None
    else if results[0].verdict.Block? then Some(results[0])
    else FirstBlock(results[1..])
  }

  function Overall(body: Verdict, results: seq<Result>): (Verdict, Code) {
    match FirstBlock(results)
    case Some(r) => (Verdict.Block, r.code)
    case None => if body.Block? then (Verdict.Block, BLOCK_2008) else (Verdict.Pass, OK_0000)
  }

  /** What the webhook reports: an audit-only author is always shown PASS. */
  function Reported(body: Verdict, results: seq<Result>, auditOnly: bool): (Verdict, Code) {
    if auditOnly then (Verdict.Pass, OK_0000) else Overall(body, results)
  }

  /** The first blocking attachment decides; without one a blocking body gives BLOCK-2008, and else the post passes. */
  lemma {:induction false} OverallIsExact(body: Verdict, results: seq<Result>, i: nat)
    requires i <= |results| && forall k :: 0 <= k < i ==> !results[k].verdict.Block?
    ensures i < |results| && results[i].verdict.Block? ==> Overall(body, results) == (Verdict.Block, results[i].code)
    ensures i == |results| ==>
              Overall(body, results) == if body.Block? then (Verdict.Block, BLOCK_2008) else (Verdict.Pass, OK_0000)
  {
    if i > 0 {
      OverallIsExact(body, results[1..], i - 1);
    }
  }

  method OverallVerdict(body: Verdict, results: seq<Result>) returns (verdict: Verdict, code: Code)
    ensures (verdict, code) == Overall(body, results)
  {
    var hasBlock := body.Block?;
    for i := 0 to |results|
      invariant FirstBlock(results) == FirstBlock(results[i..])
      invariant hasBlock == body.Block?
    {
      assert results[i..][1..] == results[i + 1..];
      if results[i].verdict.Block? {
        hasBlock := true;
        break;
      }
    }
    if hasBlock {
      for i := 0 to |results|
        invariant FirstBlock(results) == FirstBlock(results[i..])
      {
        assert results[i..][1..] == results[i + 1..];
        if results[i].verdict.Block? {
          return Verdict.Block, results[i].code;
        }
      }
      return Verdict.Block, BLOCK_2008;
    }
    return Verdict.Pass, OK_0000;
  }

  /* ---------- The job ---------- */

  datatype Status = Pending | Processing | Completed | Failed

  function Rank(s: Status): nat {
    match s
    case Pending => 0
    case Processing => 1
    case Completed => 2
    case Failed => 3
  }

  /** The job row as a poller sees it. */
  datatype Row = Row(status: Status, results: seq<Result>, verdict: Option<(Verdict, Code)>, delivered: Option<bool>)

  /** What becomes of an awaited step; a write may be committed before the error surfaces. */
  datatype Fate = Fine | Raises(applied: bool) | Cancels(applied: bool)

  datatype Effect = Webhook(verdict: Verdict, code: Code, results: seq<Result>) | Delete(code: Code)

  datatype Exit = Normal | Raised | Cancelled

  /** Fates of the awaited steps, in the order they are awaited. */
  datatype Fates = Fates(
    start: Fate, analyzer: Fate, extractions: seq<Extraction>, progress: seq<Fate>, decide: Fate,
    finish: Fate, send: Fate, sendDelivered: bool, record: Fate, delete: Fate, fail: Fate)

  function ExitOf(f: Fate): Exit {
    match f
    case Fine => Normal
    case Raises(_) => Raised
    case Cancels(_) => Cancelled
  }

  /** Whether a write got through, even if an error surfaced after it. */
  predicate Applied(f: Fate) { f.Fine? || f.applied }

  function Last(rows: seq<Row>): Row
    requires rows != []
  {
    rows[|rows| - 1]
  }

  /** update_job: the written row joins the history if the write got through. */
  function Written(rows: seq<Row>, row: Row, f: Fate): seq<Row> {
    if Applied(f) then rows + [row] else rows
  }

  /** The results the worker gets to, in request order, stopping at a cancellation. */
  function ResultsOf(atts: seq<Attachment>, es: seq<Extraction>, s: Strictness): seq<Result>
    requires |atts| == |es|
  {
    if atts == [] || es[0].Interrupted? then []
    else [ResultOf(atts[0], es[0], s)] + ResultsOf(atts[1..], es[1..], s)
  }

  lemma {:induction false} ResultsAt(atts: seq<Attachment>, es: seq<Extraction>, s: Strictness, i: nat)
    requires |atts| == |es| && i < |atts| && i <= |ResultsOf(atts, es, s)|
    ensures |ResultsOf(atts, es, s)| <= |atts|
    ensures es[i].Interrupted? <==> |ResultsOf(atts, es, s)| == i
    ensures !es[i].Interrupted? ==> ResultsOf(atts, es, s)[i] == ResultOf(atts[i], es[i], s)
  {
    hide ResultOf;
    if i > 0 {
      ResultsAt(atts[1..], es[1..], s, i - 1);
    } else {
      ResultsBounded(atts, es, s);
    }
  }

  lemma {:induction false} ResultsBounded(atts: seq<Attachment>, es: seq<Extraction>, s: Strictness)
    requires |atts| == |es|
    ensures |ResultsOf(atts, es, s)| <= |atts|
  {
    hide ResultOf;
    if atts != [] {
      ResultsBounded(atts[1..], es[1..], s);
    }
  }

  /* ---------- Steps and how a failure ends them ---------- */

  /** A step of the job: something awaited, a write to the job row, or a callback, each with its fate. */
  datatype Step = Await(fate: Fate) | Write(row: Row, fate: Fate) | Call(effect: Effect, fate: Fate)

  datatype Plan = Done | Then(step: Step, rest: Plan)

  /** The first step that is not fine decides how a plan ends. */
  function ExitAfter(plan: Plan): Exit {
    match plan
    case Done => Normal
    case Then(step, rest) => if step.fate.Fine? then ExitAfter(rest) else ExitOf(step.fate)
  }

  /** The rows written on the way, the failing step's own included if it got through. */
  function RowsAfter(plan: Plan): seq<Row> {
    match plan
    case Done => []
    case Then(step, rest) =>
      (if step.Write? then Written([], step.row, step.fate) else []) + if step.fate.Fine? then RowsAfter(rest) else []
  }

  /** The callbacks made on the way; a failing one has been attempted. */
  function EffectsAfter(plan: Plan): seq<Effect> {
    match plan
    case Done => []
    case Then(step, rest) =>
      (if step.Call? then [step.effect] else []) + if step.fate.Fine? then EffectsAfter(rest) else []
  }

  lemma TakeStep(step: Step, rest: Plan)
    ensures ExitAfter(Then(step, rest)) == if step.fate.Fine? then ExitAfter(rest) else ExitOf(step.fate)
    ensures step.Write? ==>
              RowsAfter(Then(step, rest))
              == Written([], step.row, step.fate) + if step.fate.Fine? then RowsAfter(rest) else []
    ensures !step.Write? ==> RowsAfter(Then(step, rest)) == if step.fate.Fine? then RowsAfter(rest) else []
    ensures step.Call? ==>
              EffectsAfter(Then(step, rest)) == [step.effect] + if step.fate.Fine? then EffectsAfter(rest) else []
    ensures !step.Call? ==> EffectsAfter(Then(step, rest)) == if step.fate.Fine? then EffectsAfter(rest) else []
  {
  }

  /** From attachment i on: analyse it, then mirror the running results into the row. */
  function LoopPlan(atts: seq<Attachment>, s: Strictness, f: Fates, i: nat, done: seq<Result>, next: Plan): Plan
    requires |f.extractions| == |atts| == |f.progress| && i <= |atts|
    decreases |atts| - i
  {
    if i == |atts| then next
    else if f.extractions[i].Interrupted? then Then(Await(Cancels(false)), next)
    else
      var results := done + [ResultOf(atts[i], f.extractions[i], s)];
      Then(Write(Row(Processing, results, None, None), f.progress[i]), LoopPlan(atts, s, f, i + 1, results, next))
  }

  /** From the COMPLETED write to the DELETE. */
  function DeliverPlan(all: seq<Result>, reported: (Verdict, Code), callback: bool, f: Fates): Plan {
    Then(Write(Row(Completed, all, Some(reported), None), f.finish),
         if !callback then Done
         else Then(Call(Webhook(reported.0, reported.1, all), f.send),
                   Then(Write(Row(Completed, all, Some(reported), Some(f.sendDelivered)), f.record),
                        if reported.0.Block? then Then(Call(Delete(reported.1), f.delete), Done) else Done)))
  }

  /** One call of the worker, with the results it gets to and the verdict it then reports. */
  datatype Job = Job(atts: seq<Attachment>, body: Verdict, strictness: Strictness, auditOnly: bool, callback: bool) {
    function Results(f: Fates): seq<Result>
      requires |f.extractions| == |atts|
    {
      ResultsOf(atts, f.extractions, strictness)
    }

    function Report(f: Fates): (Verdict, Code)
      requires |f.extractions| == |atts|
    {
      Reported(body, Results(f), auditOnly)
    }
  }

  /** From attachment i on nothing fails but what becomes a result. */
  predicate LoopFine(f: Fates, i: nat)
    requires |f.extractions| == |f.progress|
  {
    forall k :: i <= k < |f.progress| ==> f.progress[k].Fine? && !f.extractions[k].Interrupted?
  }

  predicate FatesFit(job: Job, f: Fates) { |f.extractions| == |job.atts| == |f.progress| }

  /** What follows the loop over the attachments. */
  function TailPlan(job: Job, f: Fates): Plan
    requires FatesFit(job, f)
  {
    Then(Await(f.decide), DeliverPlan(job.Results(f), job.Report(f), job.callback, f))
  }

  /** The try block, in the order its steps are awaited. */
  function JobPlan(job: Job, f: Fates): Plan
    requires FatesFit(job, f)
  {
    Then(Write(Row(Processing, [], None, None), f.start),
         Then(Await(f.analyzer), LoopPlan(job.atts, job.strictness, f, 0, [], TailPlan(job, f))))
  }

  const CREATED := Row(Pending, [], None, None)

  /** Every row a poller can see, in order: an exception marks the last one FAILED, a cancellation does not. */
  function JobRows(job: Job, f: Fates): (rows: seq<Row>)
    requires FatesFit(job, f)
    ensures rows != [] && rows[0] == CREATED
  {
    var rows := [CREATED] + RowsAfter(JobPlan(job, f));
    if ExitAfter(JobPlan(job, f)).Raised? then Written(rows, Last(rows).(status := Failed), f.fail) else rows
  }

  /** Only a cancellation of the FAILED write turns an exception into a cancellation. */
  function JobExit(job: Job, f: Fates): Exit
    requires FatesFit(job, f)
  {
    var exit := ExitAfter(JobPlan(job, f));
    if exit.Raised? && f.fail.Cancels? then Cancelled else exit
  }

  lemma Assoc<T>(a: seq<T>, b: seq<T>, c: seq<T>)
    ensures a + b + c == a + (b + c)
  {
  }

  // The steps around the loop, taken one by one.
  lemma UnfoldJob(job: Job, f: Fates)
    requires FatesFit(job, f)
    ensures var plan, loop := JobPlan(job, f), LoopPlan(job.atts, job.strictness, f, 0, [], TailPlan(job, f));
            var started := Written([CREATED], Row(Processing, [], None, None), f.start);
            if f.start.Fine? && f.analyzer.Fine? then
              && [CREATED] + RowsAfter(plan) == started + RowsAfter(loop)
              && EffectsAfter(plan) == EffectsAfter(loop) && ExitAfter(plan) == ExitAfter(loop)
            else
              && [CREATED] + RowsAfter(plan) == started && EffectsAfter(plan) == []
              && ExitAfter(plan) == ExitOf(if f.start.Fine? then f.analyzer else f.start)
  {
    var plan := JobPlan(job, f);
    hide LoopPlan, TailPlan, ExitAfter, RowsAfter, EffectsAfter;
    TakeStep(plan.step, plan.rest);
    TakeStep(plan.rest.step, plan.rest.rest);
    var row := Row(Processing, [], None, None);
    WriteAfter([CREATED], row, f.start);
    hide Written;
    var started := Written([], row, f.start);
    if f.start.Fine? {
      Assoc([CREATED], started, RowsAfter(plan.rest));
      assert [CREATED] + started + [] == [CREATED] + started;
    }
  }

  lemma WriteAfter(rows: seq<Row>, row: Row, f: Fate)
    ensures Written(rows, row, f) == rows + Written([], row, f)
  {
  }

  lemma UnfoldTail(job: Job, f: Fates)
    requires FatesFit(job, f)
    ensures var tail, deliver := TailPlan(job, f), DeliverPlan(job.Results(f), job.Report(f), job.callback, f);
            if f.decide.Fine? then
              && RowsAfter(tail) == RowsAfter(deliver) && EffectsAfter(tail) == EffectsAfter(deliver)
              && ExitAfter(tail) == ExitAfter(deliver)
            else
              RowsAfter(tail) == [] && EffectsAfter(tail) == [] && ExitAfter(tail) == ExitOf(f.decide)
  {
    var tail := TailPlan(job, f);
    hide DeliverPlan, ResultsOf, Reported, ExitAfter, RowsAfter, EffectsAfter;
    TakeStep(tail.step, tail.rest);
  }

  /* ---------- The worker ---------- */

  /** The loop over the attachments, mirroring the running results into the row. */
  method ProcessAttachments(atts: seq<Attachment>, s: Strictness, f: Fates, ghost next: Plan)
    returns (rows: seq<Row>, results: seq<Result>, exit: Exit)
    requires |f.extractions| == |atts| == |f.progress|
    ensures var plan := LoopPlan(atts, s, f, 0, [], next);
            && rows + (if exit.Normal? then RowsAfter(next) else []) == RowsAfter(plan)
            && (if exit.Normal? then ExitAfter(next) else exit) == ExitAfter(plan)
            && (if exit.Normal? then EffectsAfter(next) else []) == EffectsAfter(plan)
    ensures exit.Normal? <==> LoopFine(f, 0)
    ensures exit.Normal? ==> results == ResultsOf(atts, f.extractions, s) && |results| == |atts|
  {
    hide ResultOf, ResultsOf, ExitAfter, RowsAfter, EffectsAfter, LoopPlan, LoopFine, Describes;
    rows, results, exit := [], [], Normal;
    ghost var all, plan := ResultsOf(atts, f.extractions, s), LoopPlan(atts, s, f, 0, [], next);
    ResultsBounded(atts, f.extractions, s);
    for i := 0 to |atts|
      invariant i <= |all| && results == all[..i]
      invariant rows + RowsAfter(LoopPlan(atts, s, f, i, results, next)) == RowsAfter(plan)
      invariant ExitAfter(LoopPlan(atts, s, f, i, results, next)) == ExitAfter(plan)
      invariant EffectsAfter(LoopPlan(atts, s, f, i, results, next)) == EffectsAfter(plan)
      invariant LoopFine(f, i) <==> LoopFine(f, 0)
    {
      ResultsAt(atts, f.extractions, s, i);
      UnfoldLoop(atts, s, f, i, results, next);
      ghost var before := rows;
      var r := ProcessOne(atts[i], f.extractions[i], s);
      if r.None? {
        exit := Cancelled;
        return;
      }
      results := results + [r.value];
      var row := Row(Processing, results, None, None);
      rows := Written(rows, row, f.progress[i]);
      WriteAfter(before, row, f.progress[i]);
      if !f.progress[i].Fine? {
        exit := ExitOf(f.progress[i]);
        return;
      }
      Assoc(before, [row], RowsAfter(LoopPlan(atts, s, f, i + 1, results, next)));
    }
    UnfoldLoop(atts, s, f, |atts|, results, next);
  }

  /** From the COMPLETED write to the DELETE. */
  method Deliver(all: seq<Result>, verdict: Verdict, code: Code, callback: bool, f: Fates)
    returns (rows: seq<Row>, effects: seq<Effect>, exit: Exit)
    ensures var plan := DeliverPlan(all, (verdict, code), callback, f);
            rows == RowsAfter(plan) && effects == EffectsAfter(plan) && exit == ExitAfter(plan)
  {
    UnfoldDeliver(all, (verdict, code), callback, f);
    hide ExitAfter, RowsAfter, EffectsAfter;
    rows, effects := Written([], Row(Completed, all, Some((verdict, code)), None), f.finish), [];
    exit := ExitOf(f.finish);
    if !exit.Normal? || !callback {
      return;
    }
    effects, exit := [Webhook(verdict, code, all)], ExitOf(f.send);
    if !exit.Normal? {
      return;
    }
    rows := Written(rows, Row(Completed, all, Some((verdict, code)), Some(f.sendDelivered)), f.record);
    exit := ExitOf(f.record);
    if exit.Normal? && verdict.Block? {
      effects, exit := effects + [Delete(code)], ExitOf(f.delete);
    }
  }

  /** From the loop over the attachments to the end of the try block. */
  method WorkAndDeliver(job: Job, f: Fates) returns (rows: seq<Row>, effects: seq<Effect>, exit: Exit)
    requires FatesFit(job, f)
    ensures var plan := LoopPlan(job.atts, job.strictness, f, 0, [], TailPlan(job, f));
            rows == RowsAfter(plan) && effects == EffectsAfter(plan) && exit == ExitAfter(plan)
  {
    UnfoldTail(job, f);
    hide LoopPlan, DeliverPlan, TailPlan, ResultsOf, Overall, ExitAfter, RowsAfter, EffectsAfter;
    effects := [];
    var results;
    rows, results, exit := ProcessAttachments(job.atts, job.strictness, f, TailPlan(job, f));
    if !exit.Normal? {
      return;
    }
    var verdict, code := OverallVerdict(job.body, results);
    exit := ExitOf(f.decide);
    if !exit.Normal? {
      return;
    }
    if job.auditOnly {
      verdict, code := Verdict.Pass, OK_0000;
    }
    var more;
    more, effects, exit := Deliver(results, verdict, code, job.callback, f);
    rows := rows + more;
  }

  /** The try block of process_attachment_job. */
  method Attempt(job: Job, f: Fates) returns (rows: seq<Row>, effects: seq<Effect>, exit: Exit)
    requires FatesFit(job, f)
    ensures rows == [CREATED] + RowsAfter(JobPlan(job, f))
    ensures effects == EffectsAfter(JobPlan(job, f)) && exit == ExitAfter(JobPlan(job, f))
  {
    UnfoldJob(job, f);
    hide LoopPlan, TailPlan, JobPlan, ExitAfter, RowsAfter, EffectsAfter, Written;
    effects := [];
    rows, exit := Written([CREATED], Row(Processing, [], None, None), f.start), ExitOf(f.start);
    if !exit.Normal? {
      return;
    }
    exit := ExitOf(f.analyzer);
    if !exit.Normal? {
      return;
    }
    var more;
    more, effects, exit := WorkAndDeliver(job, f);
    rows := rows + more;
  }

  /* ---------- What every job keeps ---------- */

  /** Status never goes back and stored results only grow, from any row to any later one. */
  predicate Forward(rows: seq<Row>) {
    forall i, j :: 0 <= i < j < |rows| ==>
      Rank(rows[i].status) <= Rank(rows[j].status) && rows[i].results <= rows[j].results
  }

  /** A row stores a prefix of the final list, and all of it once completed. */
  predicate Faithful(row: Row, all: seq<Result>, n: nat, reported: (Verdict, Code)) {
    && row.results <= all
    && (row.status.Completed? ==> row.results == all && |all| == n && row.verdict == Some(reported))
  }

  /** The callbacks a job makes when nothing goes wrong. */
  function Callbacks(callback: bool, reported: (Verdict, Code), all: seq<Result>): seq<Effect> {
    if !callback then []
    else [Webhook(reported.0, reported.1, all)] + if reported.0.Block? then [Delete(reported.1)] else []
  }

  /** Every step before the COMPLETED write is fine. */
  predicate ReachesFinish(f: Fates)
    requires |f.extractions| == |f.progress|
  {
    && f.start.Fine? && f.analyzer.Fine? && LoopFine(f, 0) && f.decide.Fine?
  }

  /** From attachment i on: row k of the loop stores the first i + k + 1 results. */
  predicate LoopRows(rows: seq<Row>, all: seq<Result>, i: nat) {
    && i + |rows| <= |all|
    && forall k :: 0 <= k < |rows| ==> rows[k] == Row(Processing, all[..i + k + 1], None, None)
  }

  lemma LoopRowsGrow(rows: seq<Row>, all: seq<Result>, i: nat)
    requires LoopRows(rows, all, i + 1)
    ensures LoopRows([Row(Processing, all[..i + 1], None, None)] + rows, all, i)
  {
  }

  // What comes after the loop happens only if nothing in it failed.
  lemma {:induction false} LoopFacts(atts: seq<Attachment>, s: Strictness, f: Fates, i: nat, done: seq<Result>,
                                     next: Plan)
    returns (rows: seq<Row>)
    requires |f.extractions| == |atts| == |f.progress| && i <= |atts|
    requires var all := ResultsOf(atts, f.extractions, s);
             i <= |all| && done == all[..i]
    ensures LoopRows(rows, ResultsOf(atts, f.extractions, s), i)
    ensures LoopFine(f, i) ==> |ResultsOf(atts, f.extractions, s)| == |atts|
    ensures var plan := LoopPlan(atts, s, f, i, done, next);
            if LoopFine(f, i) then
              && RowsAfter(plan) == rows + RowsAfter(next)
              && EffectsAfter(plan) == EffectsAfter(next) && ExitAfter(plan) == ExitAfter(next)
            else
              RowsAfter(plan) == rows && EffectsAfter(plan) == [] && !ExitAfter(plan).Normal?
    decreases |atts| - i
  {
    hide ResultOf, ResultsOf, ExitAfter, RowsAfter, EffectsAfter, LoopFine, LoopRows, LoopPlan;
    var all := ResultsOf(atts, f.extractions, s);
    ResultsBounded(atts, f.extractions, s);
    UnfoldLoop(atts, s, f, i, done, next);
    rows := [];
    if i == |atts| || f.extractions[i].Interrupted? {
      LoopRowsShort(all, i);
      assert [] + RowsAfter(next) == RowsAfter(next);
    } else {
      ResultsAt(atts, f.extractions, s, i);
      var results := done + [ResultOf(atts[i], f.extractions[i], s)];
      assert results == all[..i + 1];
      var row := Row(Processing, results, None, None);
      if f.progress[i].Fine? {
        var later := LoopFacts(atts, s, f, i + 1, results, next);
        LoopRowsGrow(later, all, i);
        Assoc([row], later, RowsAfter(next));
        rows := [row] + later;
      } else {
        LoopRowsShort(all, i);
        rows := Written([], row, f.progress[i]);
        assert [] + [row] == [row];
      }
    }
  }

  // One round of the loop.
  lemma UnfoldLoop(atts: seq<Attachment>, s: Strictness, f: Fates, i: nat, done: seq<Result>, next: Plan)
    requires |f.extractions| == |atts| == |f.progress| && i <= |atts|
    ensures var plan := LoopPlan(atts, s, f, i, done, next);
            if i == |atts| then plan == next && LoopFine(f, i)
            else if f.extractions[i].Interrupted? then
              RowsAfter(plan) == [] && EffectsAfter(plan) == [] && ExitAfter(plan).Cancelled? && !LoopFine(f, i)
            else
              var row := Row(Processing, done + [ResultOf(atts[i], f.extractions[i], s)], None, None);
              var rest := LoopPlan(atts, s, f, i + 1, row.results, next);
              if f.progress[i].Fine? then
                && RowsAfter(plan) == [row] + RowsAfter(rest)
                && EffectsAfter(plan) == EffectsAfter(rest) && ExitAfter(plan) == ExitAfter(rest)
                && (LoopFine(f, i) <==> LoopFine(f, i + 1))
              else
                && RowsAfter(plan) == Written([], row, f.progress[i]) && EffectsAfter(plan) == []
                && ExitAfter(plan) == ExitOf(f.progress[i]) && !LoopFine(f, i)
  {
    hide ResultOf, ExitAfter, RowsAfter, EffectsAfter;
    if i < |atts| {
      var plan := LoopPlan(atts, s, f, i, done, next);
      TakeStep(plan.step, plan.rest);
    }
  }

  lemma LoopRowsShort(all: seq<Result>, i: nat)
    requires i <= |all|
    ensures LoopRows([], all, i)
    ensures i < |all| ==> LoopRows([Row(Processing, all[..i + 1], None, None)], all, i)
  {
  }

  lemma DeliverFacts(all: seq<Result>, reported: (Verdict, Code), callback: bool, f: Fates)
    ensures var plan := DeliverPlan(all, reported, callback, f);
            var rows, effects, exit := RowsAfter(plan), EffectsAfter(plan), ExitAfter(plan);
            && (forall k :: 0 <= k < |rows| ==>
                  rows[k].status.Completed? && rows[k].results == all && rows[k].verdict == Some(reported))
            && (rows != [] <==> Applied(f.finish))
            && |rows| <= 2
            && (|rows| == 2 <==> f.finish.Fine? && callback && f.send.Fine? && Applied(f.record))
            && (rows != [] ==> rows[0].delivered == None)
            && (|rows| == 2 ==> rows[1].delivered == Some(f.sendDelivered))
            && effects <= Callbacks(callback, reported, all)
            && (effects != [] ==> f.finish.Fine?)
            && (exit.Normal? ==> effects == Callbacks(callback, reported, all))
            && (exit.Normal? <==>
                && f.finish.Fine?
                && (callback ==> f.send.Fine? && f.record.Fine? && (reported.0.Block? ==> f.delete.Fine?)))
  {
    UnfoldDeliver(all, reported, callback, f);
    hide ExitAfter, RowsAfter, EffectsAfter;
  }

  lemma UnfoldDeliver(all: seq<Result>, reported: (Verdict, Code), callback: bool, f: Fates)
    ensures var plan := DeliverPlan(all, reported, callback, f);
            var row := Row(Completed, all, Some(reported), None);
            var webhook := Webhook(reported.0, reported.1, all);
            var rows := Written([], row, f.finish);
            if !f.finish.Fine? || !callback then
              RowsAfter(plan) == rows && EffectsAfter(plan) == [] && ExitAfter(plan) == ExitOf(f.finish)
            else if !f.send.Fine? then
              RowsAfter(plan) == rows && EffectsAfter(plan) == [webhook] && ExitAfter(plan) == ExitOf(f.send)
            else
              && RowsAfter(plan) == Written(rows, row.(delivered := Some(f.sendDelivered)), f.record)
              && if !f.record.Fine? || !reported.0.Block? then
                   EffectsAfter(plan) == [webhook] && ExitAfter(plan) == ExitOf(f.record)
                 else
                   EffectsAfter(plan) == [webhook, Delete(reported.1)] && ExitAfter(plan) == ExitOf(f.delete)
  {
    var plan := DeliverPlan(all, reported, callback, f);
    NothingLeft();
    hide ExitAfter, RowsAfter, EffectsAfter;
    TakeStep(plan.step, plan.rest);
    if callback {
      var send := plan.rest;
      TakeStep(send.step, send.rest);
      TakeStep(send.rest.step, send.rest.rest);
      if reported.0.Block? {
        TakeStep(send.rest.rest.step, Done);
      }
    }
  }

  lemma NothingLeft()
    ensures ExitAfter(Done) == Normal && RowsAfter(Done) == [] && EffectsAfter(Done) == []
  {
  }

  // The rows before the COMPLETED write: created, started, one for each attachment that got its result.
  predicate WorkRows(before: seq<Row>, all: seq<Result>) {
    && before != [] && before[0] == CREATED && Forward(before)
    && forall i :: 0 <= i < |before| ==> Rank(before[i].status) < 2 && before[i].results <= all
  }

  lemma WorkRowsStart(all: seq<Result>, start: Fate)
    ensures WorkRows(Written([CREATED], Row(Processing, [], None, None), start), all)
  {
  }

  lemma WorkRowsJoin(loop: seq<Row>, all: seq<Result>, start: Fate)
    requires start.Fine? && LoopRows(loop, all, 0)
    ensures WorkRows(Written([CREATED], Row(Processing, [], None, None), start) + loop, all)
  {
  }

  lemma WorkFacts(job: Job, f: Fates) returns (before: seq<Row>)
    requires FatesFit(job, f)
    ensures WorkRows(before, job.Results(f))
    ensures ReachesFinish(f) ==> |job.Results(f)| == |job.atts|
    ensures var plan, deliver := JobPlan(job, f), DeliverPlan(job.Results(f), job.Report(f), job.callback, f);
            if ReachesFinish(f) then
              && [CREATED] + RowsAfter(plan) == before + RowsAfter(deliver)
              && EffectsAfter(plan) == EffectsAfter(deliver) && ExitAfter(plan) == ExitAfter(deliver)
            else
              [CREATED] + RowsAfter(plan) == before && EffectsAfter(plan) == [] && !ExitAfter(plan).Normal?
  {
    UnfoldJob(job, f);
    WorkRowsStart(job.Results(f), f.start);
    before := Written([CREATED], Row(Processing, [], None, None), f.start);
    hide LoopPlan, DeliverPlan, TailPlan, JobPlan, ResultsOf, Reported, ExitAfter, RowsAfter, EffectsAfter, WorkRows,
      LoopFine, LoopRows, Written;
    if f.start.Fine? && f.analyzer.Fine? {
      UnfoldTail(job, f);
      var loop := LoopFacts(job.atts, job.strictness, f, 0, [], TailPlan(job, f));
      WorkRowsJoin(loop, job.Results(f), f.start);
      if LoopFine(f, 0) {
        Assoc(before, loop, RowsAfter(TailPlan(job, f)));
        assert before + loop + [] == before + loop;
      }
      before := before + loop;
    }
  }

  /**
    Status never moves back and results only grow; each row holds a prefix of the final list and a
    COMPLETED one all of it, one result per attachment, with the reported verdict; `completed` and
    `failed` say whether a COMPLETED row was ever seen and whether the last row is FAILED.
   */
  predicate RowsKeep(rows: seq<Row>, all: seq<Result>, n: nat, reported: (Verdict, Code),
                     completed: bool, failed: bool) {
    && rows != [] && rows[0] == Row(Pending, [], None, None) && Forward(rows)
    && (forall i :: 0 <= i < |rows| ==> Faithful(rows[i], all, n, reported))
    && (failed ==> |rows| > 1 && Last(rows) == rows[|rows| - 2].(status := Failed))
    && (completed <==> exists i :: 0 <= i < |rows| && rows[i].status.Completed?)
    && (failed <==> Last(rows).status.Failed?)
    && (completed && !failed ==> Last(rows).status.Completed?)
    && (forall i :: 0 <= i < |rows| - 1 ==> !rows[i].status.Failed?)
  }

  /**
    The row ends FAILED exactly after an exception whose own write got through; the callbacks are the
    webhook and then, for a BLOCK, the DELETE, in that order, up to the first failure, and none comes
    before COMPLETED.
   */
  ghost predicate JobPromises(job: Job, f: Fates)
    requires FatesFit(job, f)
  {
    var all, plan := job.Results(f), JobPlan(job, f);
    && RowsKeep(JobRows(job, f), all, |job.atts|, job.Report(f),
                ReachesFinish(f) && Applied(f.finish), ExitAfter(plan).Raised? && Applied(f.fail))
    && EffectsAfter(plan) <= Callbacks(job.callback, job.Report(f), all)
    && (EffectsAfter(plan) != [] ==> ReachesFinish(f) && f.finish.Fine?)
    && (JobExit(job, f).Normal? ==>
          && EffectsAfter(plan) == Callbacks(job.callback, job.Report(f), all)
          && ReachesFinish(f) && f.finish.Fine?)
  }

  lemma FailedIsLast(job: Job, f: Fates)
    requires FatesFit(job, f)
    ensures var tried := [CREATED] + RowsAfter(JobPlan(job, f));
            JobRows(job, f) == if ExitAfter(JobPlan(job, f)).Raised? && Applied(f.fail)
                               then tried + [Last(tried).(status := Failed)] else tried
  {
    hide RowsAfter, ExitAfter, JobPlan;
  }

  lemma JobRowsKeep(job: Job, f: Fates)
    requires FatesFit(job, f)
    ensures RowsKeep(JobRows(job, f), job.Results(f), |job.atts|, job.Report(f),
                     ReachesFinish(f) && Applied(f.finish), ExitAfter(JobPlan(job, f)).Raised? && Applied(f.fail))
  {
    TriedRowsKeep(job, f);
    FailedIsLast(job, f);
    hide ExitAfter, RowsAfter, ResultsOf, Reported, JobPlan, JobRows, ReachesFinish, RowsKeep;
    if ExitAfter(JobPlan(job, f)).Raised? && Applied(f.fail) {
      FailureKeeps([CREATED] + RowsAfter(JobPlan(job, f)), job.Results(f), |job.atts|, job.Report(f),
                   ReachesFinish(f) && Applied(f.finish));
    }
  }

  lemma TriedRowsKeep(job: Job, f: Fates)
    requires FatesFit(job, f)
    ensures RowsKeep([CREATED] + RowsAfter(JobPlan(job, f)), job.Results(f), |job.atts|, job.Report(f),
                     ReachesFinish(f) && Applied(f.finish), false)
  {
    var all := job.Results(f);
    var deliver := DeliverPlan(all, job.Report(f), job.callback, f);
    var before := WorkFacts(job, f);
    hide ExitAfter, RowsAfter, EffectsAfter, DeliverPlan, ResultsOf, Reported, JobPlan, Callbacks, ReachesFinish,
      WorkRows, RowsKeep;
    if ReachesFinish(f) {
      DeliverFacts(all, job.Report(f), job.callback, f);
      TriedKeeps(before, RowsAfter(deliver), all, |job.atts|, job.Report(f));
    } else {
      TriedKeeps(before, [], all, |job.atts|, job.Report(f));
      assert before + [] == before;
    }
  }

  lemma JobEffects(job: Job, f: Fates)
    requires FatesFit(job, f)
    ensures var all, plan := job.Results(f), JobPlan(job, f);
            && EffectsAfter(plan) <= Callbacks(job.callback, job.Report(f), all)
            && (EffectsAfter(plan) != [] ==> ReachesFinish(f) && f.finish.Fine?)
            && (ExitAfter(plan).Normal? ==>
                  && EffectsAfter(plan) == Callbacks(job.callback, job.Report(f), all)
                  && ReachesFinish(f) && f.finish.Fine?)
  {
    var _ := WorkFacts(job, f);
    hide ExitAfter, RowsAfter, EffectsAfter, DeliverPlan, ResultsOf, Reported, JobPlan, Callbacks, ReachesFinish,
      WorkRows;
    if ReachesFinish(f) {
      DeliverFacts(job.Results(f), job.Report(f), job.callback, f);
    }
  }

  /** For every attachment list and every pattern of failures. */
  lemma JobKeepsPromises(job: Job, f: Fates)
    requires FatesFit(job, f)
    ensures JobPromises(job, f)
  {
    hide ExitAfter, RowsAfter, EffectsAfter, DeliverPlan, ResultsOf, Reported, JobPlan, Callbacks, ReachesFinish,
      RowsKeep, JobRows;
    JobRowsKeep(job, f);
    JobEffects(job, f);
  }

  lemma TriedKeeps(before: seq<Row>, delivered: seq<Row>, all: seq<Result>, n: nat, reported: (Verdict, Code))
    requires WorkRows(before, all) && (delivered != [] ==> |all| == n)
    requires forall k :: 0 <= k < |delivered| ==>
               delivered[k].status.Completed? && delivered[k].results == all && delivered[k].verdict == Some(reported)
    ensures RowsKeep(before + delivered, all, n, reported, delivered != [], false)
  {
    var rows := before + delivered;
    ForwardJoins(before, delivered, all, Completed);
    hide Forward;
    assert delivered != [] ==> rows[|before|] == delivered[0];
  }

  lemma FailureKeeps(rows: seq<Row>, all: seq<Result>, n: nat, reported: (Verdict, Code), completed: bool)
    requires RowsKeep(rows, all, n, reported, completed, false)
    ensures RowsKeep(rows + [Last(rows).(status := Failed)], all, n, reported, completed, true)
  {
    var r := rows + [Last(rows).(status := Failed)];
    FailedJoins(rows, [Last(rows).(status := Failed)]);
    hide Forward;
    if completed {
      var i :| 0 <= i < |rows| && rows[i].status.Completed?;
      assert r[i].status.Completed?;
    }
  }

  // A later segment whose rows all store the whole list, in a later status, keeps a history going forward.
  lemma ForwardJoins(before: seq<Row>, later: seq<Row>, all: seq<Result>, status: Status)
    requires Forward(before)
    requires forall i :: 0 <= i < |before| ==> Rank(before[i].status) <= Rank(status) && before[i].results <= all
    requires forall i :: 0 <= i < |later| ==> later[i].status == status && later[i].results == all
    ensures Forward(before + later)
  {
  }

  lemma FailedJoins(rows: seq<Row>, failed: seq<Row>)
    requires rows != [] && Forward(rows) && (failed == [] || failed == [Last(rows).(status := Failed)])
    ensures Forward(rows + failed)
  {
  }

  /** The job ends normally exactly when every step it gets to is fine. */
  lemma JobEndsNormallyIff(job: Job, f: Fates)
    requires FatesFit(job, f)
    ensures JobExit(job, f).Normal? <==>
              && ReachesFinish(f) && f.finish.Fine?
              && (job.callback ==> f.send.Fine? && f.record.Fine? && (job.Report(f).0.Block? ==> f.delete.Fine?))
  {
    var _ := WorkFacts(job, f);
    DeliverFacts(job.Results(f), job.Report(f), job.callback, f);
    hide ExitAfter, RowsAfter, EffectsAfter, DeliverPlan, ResultsOf, JobPlan;
  }

  predicate CompletedThenFailed(rows: seq<Row>) {
    exists i, j :: 0 <= i < j < |rows| && rows[i].status.Completed? && rows[j].status.Failed?
  }

  /** From the COMPLETED write on, the first step that fails raises. */
  predicate RaisesAfterCompleted(job: Job, f: Fates)
    requires FatesFit(job, f)
  {
    || f.finish == Raises(true)
    || (f.finish.Fine? && job.callback
        && (|| f.send.Raises?
            || (f.send.Fine? && f.record.Raises?)
            || (f.send.Fine? && f.record.Fine? && job.Report(f).0.Block? && f.delete.Raises?)))
  }

  /**
    COMPLETED is not terminal: a COMPLETED row is followed by FAILED exactly when every earlier step
    was fine, the COMPLETED write got through and raised, or was fine and the webhook call, the write
    of its outcome or the DELETE after a BLOCK raised, and the FAILED write got through.
   */
  lemma CompletedThenFailedIff(job: Job, f: Fates)
    requires FatesFit(job, f)
    ensures CompletedThenFailed(JobRows(job, f)) <==>
              ReachesFinish(f) && RaisesAfterCompleted(job, f) && Applied(f.fail)
  {
    var _ := WorkFacts(job, f);
    JobKeepsPromises(job, f);
    DeliverRaisesIff(job, f);
    hide ExitAfter, RowsAfter, EffectsAfter, DeliverPlan, ResultsOf, JobPlan, Callbacks, ReachesFinish,
      WorkRows, RowsKeep, CompletedThenFailed, RaisesAfterCompleted;
    FailedLast(JobRows(job, f), job.Results(f), |job.atts|, job.Report(f),
               ReachesFinish(f) && Applied(f.finish), ExitAfter(JobPlan(job, f)).Raised? && Applied(f.fail));
  }

  lemma DeliverRaisesIff(job: Job, f: Fates)
    requires FatesFit(job, f)
    ensures Applied(f.finish) && ExitAfter(DeliverPlan(job.Results(f), job.Report(f), job.callback, f)).Raised?
            <==> RaisesAfterCompleted(job, f)
  {
    UnfoldDeliver(job.Results(f), job.Report(f), job.callback, f);
    hide ExitAfter, RowsAfter, EffectsAfter, DeliverPlan, ResultsOf, Reported, Written;
  }

  lemma FailedLast(rows: seq<Row>, all: seq<Result>, n: nat, reported: (Verdict, Code), completed: bool, failed: bool)
    requires RowsKeep(rows, all, n, reported, completed, failed)
    ensures CompletedThenFailed(rows) <==> completed && failed
  {
    hide Forward, Faithful;
    if completed && failed {
      var i :| 0 <= i < |rows| && rows[i].status.Completed?;
      assert rows[|rows| - 1].status.Failed?;
    }
  }

  /** Whatever the attachments, a job whose webhook call raises ends with a COMPLETED row and then a FAILED one. */
  lemma RaisingWebhookFailsCompletedJob(job: Job, f: Fates)
    requires FatesFit(job, f) && job.callback
    requires ReachesFinish(f) && f.finish.Fine? && f.send.Raises? && Applied(f.fail)
    ensures var rows, done := JobRows(job, f), Row(Completed, job.Results(f), Some(job.Report(f)), None);
            && |rows| >= 2 && rows[|rows| - 2] == done && Last(rows) == done.(status := Failed)
            && JobExit(job, f) == if f.fail.Cancels? then Cancelled else Raised
  {
    var before := WorkFacts(job, f);
    FailedIsLast(job, f);
    UnfoldDeliver(job.Results(f), job.Report(f), job.callback, f);
    hide ExitAfter, RowsAfter, EffectsAfter, DeliverPlan, ResultsOf, Reported, JobPlan, JobRows, ReachesFinish,
      WorkRows;
  }

  /** One whole job: the rows a poller can ever see, in order, the callbacks made and how it ends. */
  method ProcessAttachmentJob(job: Job, f: Fates) returns (rows: seq<Row>, effects: seq<Effect>, exit: Exit)
    requires FatesFit(job, f)
    ensures rows == JobRows(job, f) && effects == EffectsAfter(JobPlan(job, f)) && exit == JobExit(job, f)
    ensures JobPromises(job, f)
  {
    hide JobPromises, JobPlan;
    JobKeepsPromises(job, f);
    rows, effects, exit := Attempt(job, f);
    if exit.Raised? {
      rows := Written(rows, Last(rows).(status := Failed), f.fail);
      if f.fail.Cancels? {
        exit := Cancelled;
      }
    }
  }

  /* ---------- Handler and worker together ---------- */

  datatype Disposition =
    | CaseA(code: Code)
    | CaseB(code: Code)
    | CaseC(bodyCode: Code, bodyVerdict: Verdict, auditOnly: bool)

  /** What detect_post does with the body code once the request is well formed. */
  function Dispose(title: Scanned, body: Scanned, s: Strictness, policies: seq<Policy>,
                   auditOnly: bool, hasAttachments: bool, scanEnabled: bool): Disposition {
    var code := if auditOnly then OK_0000 else BodyCode(title, body, s, policies);
    if IsBlock(code) then CaseA(code)
    else if !hasAttachments || !scanEnabled then CaseB(code)
    else CaseC(code, VerdictOf(code), auditOnly)
  }

  lemma {:induction false} FirstBlockIsSomeBlock(results: seq<Result>)
    ensures FirstBlock(results).Some? <==> exists i :: 0 <= i < |results| && results[i].verdict.Block?
    ensures FirstBlock(results).Some? ==> FirstBlock(results).value in results
    ensures FirstBlock(results).Some? ==> FirstBlock(results).value.verdict.Block?
  {
    if results != [] {
      FirstBlockIsSomeBlock(results[1..]);
      if i :| 0 <= i < |results| && results[i].verdict.Block? {
        assert i > 0 ==> results[1..][i - 1].verdict.Block?;
      }
    }
  }

  /**
    Whenever the handler hands a post to the worker, the body passed, the reported code is OK-0000 or
    BLOCK-2010, and it is BLOCK exactly when the author is not audit-only and some extracted
    attachment that was processed has a kept hit at or above the threshold; DELETE follows a BLOCK
    report and nothing else.
   */
  lemma CaseCVerdict(title: Scanned, body: Scanned, s: Strictness, policies: seq<Policy>, auditOnly: bool,
                     scanEnabled: bool, atts: seq<Attachment>, es: seq<Extraction>)
    requires |atts| == |es|
    requires Dispose(title, body, s, policies, auditOnly, atts != [], scanEnabled).CaseC?
    ensures var job := Dispose(title, body, s, policies, auditOnly, atts != [], scanEnabled);
            var all := ResultsOf(atts, es, s);
            var (verdict, code) := Reported(job.bodyVerdict, all, job.auditOnly);
            && job.bodyCode == OK_0000 && job.auditOnly == auditOnly
            && verdict == VerdictOf(code) && (code == OK_0000 || code == BLOCK_2010)
            && (verdict.Block? <==>
                && !auditOnly
                && exists i :: 0 <= i < |all| && i < |es| && es[i].Extracted? && HasBlockingHit(es[i].content, s))
            && (forall callback, c :: Delete(c) in Callbacks(callback, (verdict, code), all) ==>
                  verdict.Block? && !auditOnly && c == BLOCK_2010)
  {
    hide HasBlockingHit, BodyCode, Kept, Visible, ResultsOf;
    ExactVerdict(title, body, s, policies);
    var all := ResultsOf(atts, es, s);
    ResultsBounded(atts, es, s);
    FirstBlockIsSomeBlock(all);
    forall i | 0 <= i < |all|
      ensures all[i].verdict.Block? <==> es[i].Extracted? && HasBlockingHit(es[i].content, s)
      ensures all[i].verdict.Block? ==> all[i].code == BLOCK_2010
    {
      ResultsAt(atts, es, s, i);
    }
  }

  predicate SomeBlockingAttachment(es: seq<Extraction>, s: Strictness) {
    exists i :: 0 <= i < |es| && es[i].Extracted? && HasBlockingHit(es[i].content, s)
  }

  /** What the author is told in the end: BLOCK-2010 or OK-0000. */
  function Announced(auditOnly: bool, es: seq<Extraction>, s: Strictness): (Verdict, Code) {
    if !auditOnly && SomeBlockingAttachment(es, s) then (Verdict.Block, BLOCK_2010) else (Verdict.Pass, OK_0000)
  }

  // Once every attachment has its result, the report is the announced one.
  lemma ReportIsAnnounced(title: Scanned, body: Scanned, s: Strictness, policies: seq<Policy>, auditOnly: bool,
                          scanEnabled: bool, atts: seq<Attachment>, es: seq<Extraction>)
    requires |atts| == |es| == |ResultsOf(atts, es, s)|
    requires Dispose(title, body, s, policies, auditOnly, atts != [], scanEnabled).CaseC?
    ensures var d := Dispose(title, body, s, policies, auditOnly, atts != [], scanEnabled);
            Reported(d.bodyVerdict, ResultsOf(atts, es, s), d.auditOnly) == Announced(auditOnly, es, s)
  {
    CaseCVerdict(title, body, s, policies, auditOnly, scanEnabled, atts, es);
    hide Dispose, ResultsOf, HasBlockingHit, Overall;
  }

  /** The job that _enqueue_attachment_job starts. */
  function CaseCJob(d: Disposition, atts: seq<Attachment>, s: Strictness, callback: bool): Job
    requires d.CaseC?
  {
    Job(atts, d.bodyVerdict, s, d.auditOnly, callback)
  }

  /**
    Handler and worker together, for every post, attachment list and pattern of failures.  A webhook
    goes out exactly when the job gets as far as a fine COMPLETED write and has a callback, with one
    result per attachment and BLOCK-2010 iff the author is not audit-only and some extracted
    attachment has a kept hit at the threshold.  A DELETE goes out exactly when, on top of that, the
    verdict is BLOCK and both the webhook call and the write of its outcome are fine.  A poller that
    sees COMPLETED sees that verdict.
   */
  ghost predicate CaseCOutcome(job: Job, f: Fates, auditOnly: bool)
    requires FatesFit(job, f)
  {
    var effects, told := EffectsAfter(JobPlan(job, f)), Announced(auditOnly, f.extractions, job.strictness);
    var sent := job.callback && ReachesFinish(f) && f.finish.Fine?;
    && (forall v, c, rs :: Webhook(v, c, rs) in effects <==>
          sent && (v, c) == told && rs == job.Results(f) && |rs| == |job.atts|)
    && (forall c :: Delete(c) in effects <==>
          sent && f.send.Fine? && f.record.Fine? && told.0.Block? && c == told.1)
    && (|effects| <= 2 && (effects != [] ==> effects[0].Webhook?) && (|effects| == 2 ==> effects[1].Delete?))
    && (forall row :: row in JobRows(job, f) && row.status.Completed? ==> row.verdict == Some(told))
  }

  lemma CaseCRun(title: Scanned, body: Scanned, s: Strictness, policies: seq<Policy>, auditOnly: bool,
                 scanEnabled: bool, atts: seq<Attachment>, callback: bool, f: Fates)
    requires |atts| == |f.extractions| == |f.progress|
    requires Dispose(title, body, s, policies, auditOnly, atts != [], scanEnabled).CaseC?
    ensures var d := Dispose(title, body, s, policies, auditOnly, atts != [], scanEnabled);
            CaseCOutcome(CaseCJob(d, atts, s, callback), f, auditOnly)
  {
    var d := Dispose(title, body, s, policies, auditOnly, atts != [], scanEnabled);
    var job := CaseCJob(d, atts, s, callback);
    var all := job.Results(f);
    hide Dispose, BodyCode;
    if |all| == |atts| {
      ReportIsAnnounced(title, body, s, policies, auditOnly, scanEnabled, atts, f.extractions);
    }
    OutcomeOfRun(job, f, auditOnly);
  }

  lemma OutcomeOfRun(job: Job, f: Fates, auditOnly: bool)
    requires FatesFit(job, f)
    requires |job.Results(f)| == |job.atts| ==> job.Report(f) == Announced(auditOnly, f.extractions, job.strictness)
    ensures CaseCOutcome(job, f, auditOnly)
  {
    var _ := WorkFacts(job, f);
    UnfoldDeliver(job.Results(f), job.Report(f), job.callback, f);
    CompletedRowsReport(job, f);
    hide ExitAfter, RowsAfter, EffectsAfter, DeliverPlan, ResultsOf, Reported, JobPlan, JobRows, ReachesFinish,
      WorkRows, Announced, Written;
  }

  lemma CompletedRowsReport(job: Job, f: Fates)
    requires FatesFit(job, f)
    ensures forall row :: row in JobRows(job, f) && row.status.Completed? ==>
              row.verdict == Some(job.Report(f)) && |job.Results(f)| == |job.atts|
  {
    JobKeepsPromises(job, f);
    hide ExitAfter, RowsAfter, EffectsAfter, ResultsOf, Reported, JobPlan, JobRows, ReachesFinish, Forward, Callbacks;
    forall row | row in JobRows(job, f) && row.status.Completed?
      ensures row.verdict == Some(job.Report(f)) && |job.Results(f)| == |job.atts|
    {
      var i :| 0 <= i < |JobRows(job, f)| && JobRows(job, f)[i] == row;
      assert Faithful(JobRows(job, f)[i], job.Results(f), |job.atts|, job.Report(f));
    }
  }

  /** A reported BLOCK goes without its DELETE exactly when the webhook call or the write of its outcome fails. */
  lemma BlockWithoutDeleteIff(job: Job, f: Fates, auditOnly: bool)
    requires FatesFit(job, f) && CaseCOutcome(job, f, auditOnly)
    ensures var effects := EffectsAfter(JobPlan(job, f));
            (exists rs :: Webhook(Verdict.Block, BLOCK_2010, rs) in effects) && (forall c :: Delete(c) !in effects)
            <==> && job.callback && ReachesFinish(f) && f.finish.Fine? && !(f.send.Fine? && f.record.Fine?)
                 && !auditOnly && SomeBlockingAttachment(f.extractions, job.strictness)
  {
    var _ := WorkFacts(job, f);
    hide ExitAfter, RowsAfter, EffectsAfter, DeliverPlan, ResultsOf, Reported, JobPlan, JobRows, ReachesFinish,
      WorkRows, SomeBlockingAttachment;
    var effects := EffectsAfter(JobPlan(job, f));
    var told := Announced(auditOnly, f.extractions, job.strictness);
    if job.callback && ReachesFinish(f) && f.finish.Fine? && told.0.Block? {
      assert Webhook(Verdict.Block, BLOCK_2010, job.Results(f)) in effects;
      assert f.send.Fine? && f.record.Fine? ==> Delete(BLOCK_2010) in effects;
    }
  }

  /** Case A iff the code shown is a BLOCK; otherwise Case C iff there are attachments and scanning is on. */
  lemma DispositionIff(title: Scanned, body: Scanned, s: Strictness, policies: seq<Policy>,
                       auditOnly: bool, hasAttachments: bool, scanEnabled: bool)
    ensures var d := Dispose(title, body, s, policies, auditOnly, hasAttachments, scanEnabled);
            var blocked := !auditOnly && IsBlock(BodyCode(title, body, s, policies));
            && (d == CaseA(BodyCode(title, body, s, policies)) <==> blocked)
            && (d == CaseB(OK_0000) <==> !blocked && !(hasAttachments && scanEnabled))
            && (d == CaseC(OK_0000, Verdict.Pass, auditOnly) <==> !blocked && hasAttachments && scanEnabled)
  {
    hide BodyCode, Kept, Blocks;
    ExactVerdict(title, body, s, policies);
  }

  /** Some write of the loop raises before anything else in it fails. */
  predicate LoopRaises(f: Fates)
    requires |f.extractions| == |f.progress|
  {
    exists i :: 0 <= i < |f.progress| && LoopRaisesAt(f, i)
  }

  predicate LoopRaisesAt(f: Fates, i: nat)
    requires |f.extractions| == |f.progress| && i < |f.progress|
  {
    && f.progress[i].Raises? && !f.extractions[i].Interrupted?
    && forall k :: 0 <= k < i ==> f.progress[k].Fine? && !f.extractions[k].Interrupted?
  }

  lemma {:induction false} LoopExitIff(atts: seq<Attachment>, s: Strictness, f: Fates, i: nat, done: seq<Result>,
                                       next: Plan)
    requires |f.extractions| == |atts| == |f.progress| && i <= |atts|
    requires forall k :: 0 <= k < i ==> f.progress[k].Fine? && !f.extractions[k].Interrupted?
    ensures ExitAfter(LoopPlan(atts, s, f, i, done, next)).Raised? <==>
              LoopRaises(f) || (LoopFine(f, 0) && ExitAfter(next).Raised?)
    decreases |atts| - i
  {
    hide ResultOf, RowsAfter, EffectsAfter, LoopPlan;
    UnfoldLoop(atts, s, f, i, done, next);
    if i < |atts| && !f.extractions[i].Interrupted? && f.progress[i].Fine? {
      LoopExitIff(atts, s, f, i + 1, done + [ResultOf(atts[i], f.extractions[i], s)], next);
    } else if i < |atts| {
      assert LoopRaises(f) ==> LoopRaisesAt(f, i);
      assert f.progress[i].Raises? && !f.extractions[i].Interrupted? ==> LoopRaisesAt(f, i);
    }
  }

  /**
    The job ends FAILED exactly when the first of its steps to fail raises, and does not cancel, and
    the FAILED write gets through.
   */
  lemma JobFailsIff(job: Job, f: Fates)
    requires FatesFit(job, f)
    ensures Last(JobRows(job, f)).status.Failed? <==>
              && Applied(f.fail)
              && (|| f.start.Raises?
                  || (f.start.Fine? && f.analyzer.Raises?)
                  || (f.start.Fine? && f.analyzer.Fine? && LoopRaises(f))
                  || (f.start.Fine? && f.analyzer.Fine? && LoopFine(f, 0) && f.decide.Raises?)
                  || (ReachesFinish(f) && (f.finish.Raises? || RaisesAfterCompleted(job, f))))
  {
    JobKeepsPromises(job, f);
    UnfoldJob(job, f);
    UnfoldTail(job, f);
    LoopExitIff(job.atts, job.strictness, f, 0, [], TailPlan(job, f));
    DeliverExitIff(job, f);
    hide ExitAfter, RowsAfter, EffectsAfter, LoopPlan, TailPlan, DeliverPlan, JobPlan, JobRows, ResultsOf, Reported,
      Callbacks, Forward, Faithful, LoopFine, LoopRaises, RaisesAfterCompleted, Written;
  }

  lemma DeliverExitIff(job: Job, f: Fates)
    requires FatesFit(job, f)
    ensures ExitAfter(DeliverPlan(job.Results(f), job.Report(f), job.callback, f)).Raised?
            <==> f.finish.Raises? || RaisesAfterCompleted(job, f)
  {
    UnfoldDeliver(job.Results(f), job.Report(f), job.callback, f);
    hide ExitAfter, RowsAfter, EffectsAfter, DeliverPlan, ResultsOf, Reported, Written;
  }

  /** Result i of any list that a poller or the webhook ever sees describes attachment i. */
  lemma JobDescribesAttachments(job: Job, f: Fates)
    requires FatesFit(job, f)
    ensures forall row, i :: row in JobRows(job, f) && 0 <= i < |row.results| ==>
              i < |job.atts| && Describes(row.results[i], job.atts[i], f.extractions[i], job.strictness)
    ensures forall row :: row in JobRows(job, f) && row.status.Completed? ==> |row.results| == |job.atts|
    ensures forall v, c, rs, i :: Webhook(v, c, rs) in EffectsAfter(JobPlan(job, f)) && 0 <= i < |rs| ==>
              i < |job.atts| && Describes(rs[i], job.atts[i], f.extractions[i], job.strictness)
  {
    var all := job.Results(f);
    ResultsBounded(job.atts, f.extractions, job.strictness);
    forall i | 0 <= i < |all|
      ensures Describes(all[i], job.atts[i], f.extractions[i], job.strictness)
    {
      ResultsAt(job.atts, f.extractions, job.strictness, i);
      ResultDescribes(job.atts[i], f.extractions[i], job.strictness);
    }
    RowsHoldPrefixes(job, f);
    WebhookHoldsAll(job, f);
    hide Describes, ResultsOf, JobRows, JobPlan, EffectsAfter;
  }

  lemma RowsHoldPrefixes(job: Job, f: Fates)
    requires FatesFit(job, f)
    ensures forall row :: row in JobRows(job, f) ==>
              row.results <= job.Results(f) && (row.status.Completed? ==> |row.results| == |job.atts|)
  {
    JobKeepsPromises(job, f);
    hide ExitAfter, RowsAfter, EffectsAfter, ResultsOf, Reported, JobPlan, JobRows, ReachesFinish, Forward, Callbacks;
    forall row | row in JobRows(job, f)
      ensures row.results <= job.Results(f) && (row.status.Completed? ==> |row.results| == |job.atts|)
    {
      var i :| 0 <= i < |JobRows(job, f)| && JobRows(job, f)[i] == row;
      assert Faithful(JobRows(job, f)[i], job.Results(f), |job.atts|, job.Report(f));
    }
  }

  lemma WebhookHoldsAll(job: Job, f: Fates)
    requires FatesFit(job, f)
    ensures forall v, c, rs :: Webhook(v, c, rs) in EffectsAfter(JobPlan(job, f)) ==> rs == job.Results(f)
  {
    var _ := WorkFacts(job, f);
    UnfoldDeliver(job.Results(f), job.Report(f), job.callback, f);
    hide ExitAfter, RowsAfter, EffectsAfter, DeliverPlan, ResultsOf, Reported, JobPlan, ReachesFinish, WorkRows,
      Written;
  }
}
