/**
  From raw analyzer hits to one response code: app/api/detect.py.

  The analyzer is not modelled: a scanned field is its text and an arbitrary list of hits.
 */
module Detect {
  import opened Wrappers
  import opened Ordering
  import opened Sets
  import opened Policies
  import opened PolicyEngine

  type Span = (int, int)

  datatype Hit = Hit(entity: string, start: int, end: int, score: real) {
    function Span(): Span { (start, end) }
  }

  datatype Detection = Detection(field: string, entity: string, code: Code, score: real, start: int, end: int)

  datatype Scanned = Scanned(text: string, hits: seq<Hit>)

  const MIN_REPORTABLE_SCORE := 0.50
  const MAX_DETECTIONS_PER_SPAN: nat := 3

  /* ---------- Top k per span ---------- */

  predicate ScoresNoLower(a: Hit, b: Hit) { a.score >= b.score }

  function OnSpan(raw: seq<Hit>, sp: Span): seq<Hit> {
    if raw == [] then []
    else
      var n := |raw| - 1;
      OnSpan(raw[..n], sp) + if raw[n].Span() == sp then [raw[n]] else []
  }

  /** The spans in order of first appearance, as a Python dict lists its keys. */
  function Spans(raw: seq<Hit>): seq<Span> {
    if raw == [] then []
    else
      var n := |raw| - 1;
      var before := Spans(raw[..n]);
      if raw[n].Span() in before then before else before + [raw[n].Span()]
  }

  lemma {:induction false} OnSpanMembers(raw: seq<Hit>, sp: Span)
    ensures forall h :: h in OnSpan(raw, sp) <==> h in raw && h.Span() == sp
    ensures forall h :: h in OnSpan(raw, sp) <==> h in raw && (h.start, h.end) == sp
    ensures OnSpan(raw, sp) != [] <==> sp in Spans(raw)
  {
    if raw != [] {
      var n := |raw| - 1;
      OnSpanMembers(raw[..n], sp);
      assert raw == raw[..n] + [raw[n]];
    }
  }

  function TopK(hits: seq<Hit>, k: nat): seq<Hit> {
    var ranked := Sort(hits, ScoresNoLower);
    if k <= |ranked| then ranked[..k] else ranked
  }

  function KeepEach(raw: seq<Hit>, spans: seq<Span>, k: nat): seq<Hit> {
    if spans == [] then []
    else KeepEach(raw, spans[..|spans| - 1], k) + TopK(OnSpan(raw, spans[|spans| - 1]), k)
  }

  function TopKPerSpan(raw: seq<Hit>, k: nat): seq<Hit> {
    KeepEach(raw, Spans(raw), k)
  }

  // One more hit: its span is listed once, and its own list grows by it.
  lemma OneMoreHit(raw: seq<Hit>, h: Hit)
    ensures Spans(raw + [h]) == if h.Span() in Spans(raw) then Spans(raw) else Spans(raw) + [h.Span()]
    ensures forall sp :: OnSpan(raw + [h], sp) == OnSpan(raw, sp) + if h.Span() == sp then [h] else []
  {
    assert (raw + [h])[..|raw|] == raw;
  }

  method GroupBySpan(raw: seq<Hit>) returns (keys: seq<Span>, bySpan: map<Span, seq<Hit>>)
    ensures keys == Spans(raw)
    ensures forall sp :: sp in keys ==> sp in bySpan && bySpan[sp] == OnSpan(raw, sp)
  {
    keys, bySpan := [], map[];
    for i := 0 to |raw|
      invariant keys == Spans(raw[..i])
      invariant forall sp :: sp in bySpan <==> sp in keys
      invariant forall sp :: sp in keys ==> bySpan[sp] == OnSpan(raw[..i], sp)
    {
      hide Spans, OnSpan;
      var sp := raw[i].Span();
      assert raw[..i + 1] == raw[..i] + [raw[i]];
      OneMoreHit(raw[..i], raw[i]);
      if sp !in bySpan {
        OnSpanMembers(raw[..i], sp);
        keys, bySpan := keys + [sp], bySpan[sp := []];
      }
      bySpan := bySpan[sp := bySpan[sp] + [raw[i]]];
    }
    assert raw[..|raw|] == raw;
  }

  method ComputeTopKPerSpan(raw: seq<Hit>, k: nat) returns (out: seq<Hit>)
    ensures out == TopKPerSpan(raw, k)
  {
    var keys, bySpan := GroupBySpan(raw);
    out := [];
    for j := 0 to |keys|
      invariant out == KeepEach(raw, keys[..j], k)
    {
      hide TopK, OnSpan;
      assert keys[..j + 1][..j] == keys[..j];
      out := out + TopK(bySpan[keys[j]], k);
    }
    assert keys[..|keys|] == keys;
  }

  lemma {:induction false} KeptFromSomeSpan(raw: seq<Hit>, spans: seq<Span>, k: nat, h: Hit) returns (sp: Span)
    requires h in KeepEach(raw, spans, k)
    ensures sp in spans && h in TopK(OnSpan(raw, sp), k)
  {
    hide TopK;
    var n := |spans| - 1;
    if h in TopK(OnSpan(raw, spans[n]), k) {
      sp := spans[n];
    } else {
      sp := KeptFromSomeSpan(raw, spans[..n], k, h);
    }
  }

  lemma {:induction false} KeptOnEachSpan(raw: seq<Hit>, spans: seq<Span>, k: nat, sp: Span, h: Hit)
    requires sp in spans && h in TopK(OnSpan(raw, sp), k)
    ensures h in KeepEach(raw, spans, k)
  {
    hide TopK;
    var n := |spans| - 1;
    if sp != spans[n] {
      KeptOnEachSpan(raw, spans[..n], k, sp, h);
    }
  }

  lemma TopKFacts(hits: seq<Hit>, k: nat, h: Hit)
    ensures h in TopK(hits, k) ==> h in hits
    ensures h in hits && h !in TopK(hits, k) ==>
              |TopK(hits, k)| == k && forall g :: g in TopK(hits, k) ==> g.score >= h.score
  {
    var ranked := Sort(hits, ScoresNoLower);
    SameElements(ranked, hits);
    SortSorts(hits, ScoresNoLower);
    if h in hits && h !in TopK(hits, k) {
      var i :| 0 <= i < |ranked| && ranked[i] == h;
      assert k <= i;
      forall g | g in TopK(hits, k)
        ensures g.score >= h.score
      {
        var j :| 0 <= j < k && ranked[j] == g;
      }
    }
  }

  /** A kept hit is a raw hit; a dropped one is outscored, or tied, by k kept hits of its own span. */
  lemma KeptOrOutscored(raw: seq<Hit>, k: nat, h: Hit)
    ensures h in TopKPerSpan(raw, k) ==> h in raw
    ensures h in raw && h !in TopKPerSpan(raw, k) ==>
              var best := TopK(OnSpan(raw, h.Span()), k);
              |best| == k && forall g :: g in best ==> g in TopKPerSpan(raw, k) && g.score >= h.score
  {
    hide TopK, KeepEach;
    if h in TopKPerSpan(raw, k) {
      var sp := KeptFromSomeSpan(raw, Spans(raw), k, h);
      OnSpanMembers(raw, sp);
      TopKFacts(OnSpan(raw, sp), k, h);
    } else if h in raw {
      OnSpanMembers(raw, h.Span());
      assert h in OnSpan(raw, h.Span());
      if h in TopK(OnSpan(raw, h.Span()), k) {
        KeptOnEachSpan(raw, Spans(raw), k, h.Span(), h);
      }
      TopKFacts(OnSpan(raw, h.Span()), k, h);
      forall g | g in TopK(OnSpan(raw, h.Span()), k)
        ensures g in TopKPerSpan(raw, k)
      {
        KeptOnEachSpan(raw, Spans(raw), k, h.Span(), g);
      }
    }
  }

  /* ---------- Per-hit judgement ---------- */

  datatype Judgement = Dropped | Logged | Shown(code: Code)

  /** Score floor, default code and action, database policy, in that order. */
  function Judge(h: Hit, field: string, s: Strictness, policies: seq<Policy>): Judgement {
    if h.score < MIN_REPORTABLE_SCORE then Dropped
    else
      var r := ResolveAction(h.entity, h.score,
                             if InBlockBand(h.score, s) then Action.Block else Action.Pass,
                             MapDetectionToCode(h.entity, h.score, field, s), policies);
      match r.action
      case Pass => Dropped
      case LogOnly => Logged
      case _ => Shown(r.code)
  }

  function Visible(hits: seq<Hit>, field: string, s: Strictness, policies: seq<Policy>): seq<Detection> {
    if hits == [] then []
    else
      var n := |hits| - 1;
      var h := hits[n];
      var j := Judge(h, field, s, policies);
      Visible(hits[..n], field, s, policies)
      + if j.Shown? then [Detection(field, h.entity, j.code, h.score, h.start, h.end)] else []
  }

  function LoggedTypes(hits: seq<Hit>, field: string, s: Strictness, policies: seq<Policy>): set<string> {
    set h | h in hits && Judge(h, field, s, policies).Logged? :: h.entity
  }

  function Kept(f: Scanned): seq<Hit> {
    if f.text == "" then [] else TopKPerSpan(f.hits, MAX_DETECTIONS_PER_SPAN)
  }

  lemma OneMoreJudged(hits: seq<Hit>, h: Hit, field: string, s: Strictness, policies: seq<Policy>)
    ensures var j := Judge(h, field, s, policies);
            Visible(hits + [h], field, s, policies) == Visible(hits, field, s, policies)
            + if j.Shown? then [Detection(field, h.entity, j.code, h.score, h.start, h.end)] else []
    ensures LoggedTypes(hits + [h], field, s, policies)
         == LoggedTypes(hits, field, s, policies) + if Judge(h, field, s, policies).Logged? then {h.entity} else {}
  {
    hide Judge;
    assert (hits + [h])[..|hits|] == hits;
  }

  method JudgeHits(raw: seq<Hit>, field: string, s: Strictness, policies: seq<Policy>)
    returns (visible: seq<Detection>, logOnly: set<string>)
    ensures visible == Visible(raw, field, s, policies)
    ensures logOnly == LoggedTypes(raw, field, s, policies)
  {
    visible, logOnly := [], {};
    for i := 0 to |raw|
      invariant visible == Visible(raw[..i], field, s, policies)
      invariant logOnly == LoggedTypes(raw[..i], field, s, policies)
    {
      hide FirstMatch, MapDetectionToCode, InBlockBand, LoggedTypes, Visible;
      var h := raw[i];
      assert raw[..i + 1] == raw[..i] + [h];
      OneMoreJudged(raw[..i], h, field, s, policies);
      if h.score < MIN_REPORTABLE_SCORE {
        continue;
      }
      var code := MapDetectionToCode(h.entity, h.score, field, s);
      var action := if InBlockBand(h.score, s) then Action.Block else Action.Pass;
      var resolved := ResolveAction(h.entity, h.score, action, code, policies);
      if resolved.action.Pass? {
        continue;
      }
      if resolved.action.LogOnly? {
        logOnly := logOnly + {h.entity};
        continue;
      }
      visible := visible + [Detection(field, h.entity, resolved.code, h.score, h.start, h.end)];
    }
    assert raw[..|raw|] == raw;
  }

  method AnalyzeField(f: Scanned, field: string, s: Strictness, policies: seq<Policy>)
    returns (visible: seq<Detection>, logOnly: set<string>)
    ensures visible == Visible(Kept(f), field, s, policies)
    ensures logOnly == LoggedTypes(Kept(f), field, s, policies)
  {
    if f.text == "" {
      return [], {};
    }
    var raw := ComputeTopKPerSpan(f.hits, MAX_DETECTIONS_PER_SPAN);
    visible, logOnly := JudgeHits(raw, field, s, policies);
  }

  /** The detections of a list of hits are those of its parts, in order. */
  lemma {:induction false} VisibleConcat(a: seq<Hit>, b: seq<Hit>, field: string, s: Strictness, policies: seq<Policy>)
    ensures Visible(a + b, field, s, policies) == Visible(a, field, s, policies) + Visible(b, field, s, policies)
    decreases |b|
  {
    hide Judge;
    if b == [] {
      assert a + b == a;
    } else {
      var n := |b| - 1;
      assert a + b == (a + b[..n]) + [b[n]] && b == b[..n] + [b[n]];
      OneMoreJudged(a + b[..n], b[n], field, s, policies);
      OneMoreJudged(b[..n], b[n], field, s, policies);
      VisibleConcat(a, b[..n], field, s, policies);
    }
  }

  /** One hit gives at most one detection, with the hit's own type, score and place, in the field it was found in. */
  lemma VisibleOne(h: Hit, field: string, s: Strictness, policies: seq<Policy>)
    ensures var dets, j := Visible([h], field, s, policies), Judge(h, field, s, policies);
            && |dets| == (if j.Shown? then 1 else 0)
            && (j.Shown? ==>
                && dets[0].field == field && dets[0].entity == h.entity && dets[0].code == j.code
                && dets[0].score == h.score && dets[0].start == h.start && dets[0].end == h.end)
  {
    hide Judge;
    OneMoreJudged([], h, field, s, policies);
    assert [] + [h] == [h];
  }

  lemma {:induction false} VisibleMembers(hits: seq<Hit>, field: string, s: Strictness, policies: seq<Policy>,
                                          d: Detection)
    ensures d in Visible(hits, field, s, policies) <==>
              exists h :: h in hits && Judge(h, field, s, policies).Shown?
                          && d == Detection(field, h.entity, Judge(h, field, s, policies).code, h.score, h.start, h.end)
  {
    hide Judge;
    if hits != [] {
      var n := |hits| - 1;
      VisibleMembers(hits[..n], field, s, policies, d);
      assert hits == hits[..n] + [hits[n]];
    }
  }

  /* ---------- One code for a post ---------- */

  function BlockTypes(dets: seq<Detection>): set<string> {
    set d | d in dets && IsBlock(d.code) :: d.entity
  }

  function BlockPairs(dets: seq<Detection>): seq<(string, Code)> {
    if dets == [] then []
    else
      var n := |dets| - 1;
      BlockPairs(dets[..n]) + if IsBlock(dets[n].code) then [(dets[n].entity, dets[n].code)] else []
  }

  // Each pair comes from a blocking detection and each blocking detection leaves its pair.
  lemma {:induction false} PairTypes(dets: seq<Detection>)
    ensures (set p | p in BlockPairs(dets) :: p.0) == BlockTypes(dets)
    ensures BlockPairs(dets) != [] ==>
              exists d :: d in dets && IsBlock(d.code) && BlockPairs(dets)[0] == (d.entity, d.code)
  {
    if dets != [] {
      var n := |dets| - 1;
      PairTypes(dets[..n]);
      assert dets == dets[..n] + [dets[n]];
      var before, now := BlockPairs(dets[..n]), BlockPairs(dets);
      var added: set<string> := if IsBlock(dets[n].code) then {dets[n].entity} else {};
      assert (set p | p in now :: p.0) == (set p | p in before :: p.0) + added;
      assert BlockTypes(dets) == BlockTypes(dets[..n]) + added;
    }
  }

  /** Two or more blocking entity types: BLOCK-2008; one: the first blocking code; none: OK-0000. */
  function DecidedCode(dets: seq<Detection>): Code {
    if |BlockTypes(dets)| >= 2 then BLOCK_2008
    else if BlockPairs(dets) != [] then BlockPairs(dets)[0].1
    else OK_0000
  }

  method DecideBodyCode(dets: seq<Detection>) returns (code: Code)
    ensures code == DecidedCode(dets)
  {
    var blockCodes: seq<(string, Code)> := [];
    for i := 0 to |dets|
      invariant blockCodes == BlockPairs(dets[..i])
    {
      assert dets[..i + 1][..i] == dets[..i];
      if IsBlock(dets[i].code) {
        blockCodes := blockCodes + [(dets[i].entity, dets[i].code)];
      }
    }
    assert dets[..|dets|] == dets;
    var distinct := set p | p in blockCodes :: p.0;
    PairTypes(dets);
    if blockCodes != [] {
      return if |distinct| >= 2 then BLOCK_2008 else blockCodes[0].1;
    }
    code := OK_0000;
  }

  function CodeOfHits(title: seq<Hit>, body: seq<Hit>, s: Strictness, policies: seq<Policy>): Code {
    DecidedCode(Visible(title, "post.title", s, policies) + Visible(body, "post.body", s, policies))
  }

  /** The body code of detect_post. */
  function BodyCode(title: Scanned, body: Scanned, s: Strictness, policies: seq<Policy>): Code {
    CodeOfHits(Kept(title), Kept(body), s, policies)
  }

  /* ---------- The exact verdict ---------- */

  /** No policy row matches the hit, or the first one that does says BLOCK or WARN. */
  predicate Undiverted(h: Hit, policies: seq<Policy>) {
    match FirstMatch(policies, h.entity, h.score)
    case None => true
    case Some(p) => p.action.Block? || p.action.Warn?
  }

  /** At or above the threshold, and no policy row sends it elsewhere. */
  predicate Blocks(h: Hit, s: Strictness, policies: seq<Policy>) {
    h.score >= Threshold(s) && Undiverted(h, policies)
  }

  function BlockingTypes(hits: seq<Hit>, s: Strictness, policies: seq<Policy>): set<string> {
    set h | h in hits && Blocks(h, s, policies) :: h.entity
  }

  // A hit surfaces with a BLOCK code exactly when it blocks, and then with the code of its kind of field.
  lemma JudgedBlock(h: Hit, field: string, s: Strictness, policies: seq<Policy>)
    ensures var j := Judge(h, field, s, policies);
            && (j.Shown? && IsBlock(j.code) <==> Blocks(h, s, policies))
            && (Blocks(h, s, policies) ==>
                  j.code == if IsAttachmentField(field) then BLOCK_2010 else TableCode(h.entity))
  {
  }

  /**
    The other outcomes: LOG_ONLY and MASK rows act from the score floor up whatever the strictness,
    MASK shows as WARN-1010, and a BLOCK or WARN row below the threshold shows as OK-0000.
   */
  lemma JudgedOtherwise(h: Hit, field: string, s: Strictness, policies: seq<Policy>)
    ensures var j := Judge(h, field, s, policies);
            var row := FirstMatch(policies, h.entity, h.score);
            var reported := h.score >= 0.5 && row.Some?;
            && VerdictOf(WARN_1010) == Verdict.Warn && VerdictOf(OK_0000) == Verdict.Pass
            && (j == Logged <==> reported && row.value.action.LogOnly?)
            && (j == Shown(WARN_1010) <==> reported && row.value.action.Mask?)
            && (j == Shown(OK_0000) <==>
                  reported && h.score < Threshold(s) && (row.value.action.Block? || row.value.action.Warn?))
            && (j == Dropped <==>
                  h.score < 0.5 || (if row.Some? then row.value.action.Pass? else h.score < Threshold(s)))
  {
  }

  lemma {:induction false} VisibleBlocks(hits: seq<Hit>, field: string, s: Strictness, policies: seq<Policy>)
    ensures BlockTypes(Visible(hits, field, s, policies)) == BlockingTypes(hits, s, policies)
    ensures forall d :: d in Visible(hits, field, s, policies) && IsBlock(d.code) ==>
              d.code == if IsAttachmentField(field) then BLOCK_2010 else TableCode(d.entity)
  {
    if hits != [] {
      var n := |hits| - 1;
      hide Judge, Blocks;
      VisibleBlocks(hits[..n], field, s, policies);
      JudgedBlock(hits[n], field, s, policies);
      assert hits == hits[..n] + [hits[n]];
      var shown := Visible(hits, field, s, policies);
      assert BlockTypes(shown)
          == BlockTypes(shown[..|Visible(hits[..n], field, s, policies)|])
             + if Blocks(hits[n], s, policies) then {hits[n].entity} else {};
    }
  }

  /**
    For all hits, policies and strictness: OK-0000 when nothing blocks, BLOCK-2008 exactly when the
    blocking hits span two or more entity types, and otherwise that type's table code.
   */
  lemma ExactCode(title: seq<Hit>, body: seq<Hit>, s: Strictness, policies: seq<Policy>)
    ensures var types := BlockingTypes(title + body, s, policies);
            var code := CodeOfHits(title, body, s, policies);
            && (IsBlock(code) <==> types != {})
            && (code == OK_0000 <==> types == {})
            && (code == BLOCK_2008 <==> |types| >= 2)
            && (forall t :: types == {t} ==> code == TableCode(t))
  {
    hide Blocks, Visible, BlockTypes, BlockingTypes, BlockPairs, TableCode;
    var shownT, shownB := Visible(title, "post.title", s, policies), Visible(body, "post.body", s, policies);
    var types := BlockTypes(shownT + shownB);
    assert "post.title"[0] != "attachment"[0] && "post.body"[0] != "attachment"[0];
    VisibleBlocks(title, "post.title", s, policies);
    VisibleBlocks(body, "post.body", s, policies);
    JoinedTypes(title, body, shownT, shownB, s, policies);
    PairTypes(shownT + shownB);
    var pairs := BlockPairs(shownT + shownB);
    if pairs != [] {
      var d: Detection :| d in shownT + shownB && IsBlock(d.code) && pairs[0] == (d.entity, d.code);
      TableCodeBlocks(d.entity);
      assert pairs[0] in pairs && d.entity in types;
    }
  }

  lemma TableCodeBlocks(entity: string)
    ensures IsBlock(TableCode(entity)) && TableCode(entity) != BLOCK_2008
  {
  }

  lemma JoinedTypes(title: seq<Hit>, body: seq<Hit>, d1: seq<Detection>, d2: seq<Detection>,
                    s: Strictness, policies: seq<Policy>)
    ensures BlockTypes(d1 + d2) == BlockTypes(d1) + BlockTypes(d2)
    ensures BlockingTypes(title + body, s, policies)
         == BlockingTypes(title, s, policies) + BlockingTypes(body, s, policies)
  {
    hide Blocks;
  }

  /** The verdict of a post, in terms of the hits that top-3 keeps in its title and body. */
  lemma ExactVerdict(title: Scanned, body: Scanned, s: Strictness, policies: seq<Policy>)
    ensures var code := BodyCode(title, body, s, policies);
            var types := BlockingTypes(Kept(title) + Kept(body), s, policies);
            && (IsBlock(code) <==> exists h :: h in Kept(title) + Kept(body) && Blocks(h, s, policies))
            && (code == BLOCK_2008 <==> |types| >= 2)
            && (forall t :: types == {t} ==> code == TableCode(t))
            && (!IsBlock(code) ==> code == OK_0000)
  {
    hide Blocks, CodeOfHits, Kept;
    ExactCode(Kept(title), Kept(body), s, policies);
    var types := BlockingTypes(Kept(title) + Kept(body), s, policies);
    assert forall h :: h in Kept(title) + Kept(body) && Blocks(h, s, policies) ==> h.entity in types;
  }

  /** Body analysis as detect_post runs it. */
  method DetectBody(title: Scanned, body: Scanned, s: Strictness, policies: seq<Policy>)
    returns (code: Code, dets: seq<Detection>, logOnly: set<string>)
    ensures code == BodyCode(title, body, s, policies)
    ensures dets == Visible(Kept(title), "post.title", s, policies) + Visible(Kept(body), "post.body", s, policies)
    ensures IsBlock(code) <==> exists h :: h in Kept(title) + Kept(body) && Blocks(h, s, policies)
    ensures logOnly
         == LoggedTypes(Kept(title), "post.title", s, policies) + LoggedTypes(Kept(body), "post.body", s, policies)
  {
    hide Blocks, Kept, Visible, LoggedTypes, DecidedCode;
    var titleDets, titleLog := AnalyzeField(title, "post.title", s, policies);
    var bodyDets, bodyLog := AnalyzeField(body, "post.body", s, policies);
    dets := titleDets + bodyDets;
    code := DecideBodyCode(dets);
    logOnly := titleLog + bodyLog;
    ExactVerdict(title, body, s, policies);
  }

  // The code is a function of the set of blocking types alone.
  lemma SameTypesSameCode(t1: seq<Hit>, b1: seq<Hit>, s: Strictness, p1: seq<Policy>,
                          t2: seq<Hit>, b2: seq<Hit>, p2: seq<Policy>)
    requires BlockingTypes(t1 + b1, s, p1) == BlockingTypes(t2 + b2, s, p2)
    ensures CodeOfHits(t1, b1, s, p1) == CodeOfHits(t2, b2, s, p2)
  {
    hide Blocks, CodeOfHits;
    ExactCode(t1, b1, s, p1);
    ExactCode(t2, b2, s, p2);
    var types := BlockingTypes(t1 + b1, s, p1);
    if types != {} && |types| < 2 {
      var t :| t in types;
      Singleton(types, t);
    }
  }

  /** Detection order, and even which of the two fields a hit was found in, does not matter. */
  lemma VerdictIgnoresOrder(t1: seq<Hit>, b1: seq<Hit>, t2: seq<Hit>, b2: seq<Hit>,
                            s: Strictness, policies: seq<Policy>)
    requires forall h :: h in t1 + b1 <==> h in t2 + b2
    ensures CodeOfHits(t1, b1, s, policies) == CodeOfHits(t2, b2, s, policies)
  {
    hide Blocks, CodeOfHits;
    assert BlockingTypes(t1 + b1, s, policies) == BlockingTypes(t2 + b2, s, policies);
    SameTypesSameCode(t1, b1, s, policies, t2, b2, policies);
  }

  /** The verdict by the numbers: 0.65 at low, 0.78 at medium, 0.88 at high. */
  lemma VerdictByScore(title: Scanned, body: Scanned, policies: seq<Policy>)
    ensures var hits := Kept(title) + Kept(body);
            && (IsBlock(BodyCode(title, body, Low, policies)) <==>
                  exists h :: h in hits && h.score >= 0.65 && Undiverted(h, policies))
            && (IsBlock(BodyCode(title, body, Medium, policies)) <==>
                  exists h :: h in hits && h.score >= 0.78 && Undiverted(h, policies))
            && (IsBlock(BodyCode(title, body, High, policies)) <==>
                  exists h :: h in hits && h.score >= 0.88 && Undiverted(h, policies))
  {
    hide BodyCode, Kept, Undiverted, IsBlock;
    ExactVerdict(title, body, Low, policies);
    ExactVerdict(title, body, Medium, policies);
    ExactVerdict(title, body, High, policies);
  }

  /** A post in which one type blocks gets that type's code. */
  lemma CodeByType(title: Scanned, body: Scanned, s: Strictness, policies: seq<Policy>, t: string)
    requires BlockingTypes(Kept(title) + Kept(body), s, policies) == {t}
    ensures var code := BodyCode(title, body, s, policies);
            && (t == "KR_RRN" ==> code == BLOCK_2001)
            && (t == "KR_DRIVERLICENSE" ==> code == BLOCK_2002)
            && (t == "KR_PASSPORT" ==> code == BLOCK_2003)
            && (t == "CREDIT_CARD" ==> code == BLOCK_2005)
            && (t == "KR_BANK_ACCOUNT" ==> code == BLOCK_2006)
            && (t == "INTERNAL_NAME" ==> code == BLOCK_2007)
            && (t !in {"KR_RRN", "KR_DRIVERLICENSE", "KR_PASSPORT", "CREDIT_CARD", "KR_BANK_ACCOUNT", "INTERNAL_NAME"}
                ==> code == BLOCK_2099)
  {
    hide BodyCode, Kept, BlockingTypes;
    ExactVerdict(title, body, s, policies);
    CodesOfTypes(t);
  }

  lemma CodesOfTypes(t: string)
    ensures t == "KR_RRN" ==> TableCode(t) == BLOCK_2001
    ensures t == "KR_DRIVERLICENSE" ==> TableCode(t) == BLOCK_2002
    ensures t == "KR_PASSPORT" ==> TableCode(t) == BLOCK_2003
    ensures t == "CREDIT_CARD" ==> TableCode(t) == BLOCK_2005
    ensures t == "KR_BANK_ACCOUNT" ==> TableCode(t) == BLOCK_2006
    ensures t == "INTERNAL_NAME" ==> TableCode(t) == BLOCK_2007
    ensures t !in {"KR_RRN", "KR_DRIVERLICENSE", "KR_PASSPORT", "CREDIT_CARD", "KR_BANK_ACCOUNT", "INTERNAL_NAME"}
            ==> TableCode(t) == BLOCK_2099
  {
    assert |"KR_RRN"| == 6 && |"KR_DRIVERLICENSE"| == 16 && |"KR_PASSPORT"| == 11 && |"CREDIT_CARD"| == 11;
    assert |"KR_BANK_ACCOUNT"| == 15 && |"INTERNAL_NAME"| == 13;
    assert "KR_PASSPORT"[0] != "CREDIT_CARD"[0];
  }

  /** For fixed hits and policies, BLOCK at high implies BLOCK at medium implies BLOCK at low. */
  lemma LowerThresholdBlocksMore(title: Scanned, body: Scanned, policies: seq<Policy>)
    ensures IsBlock(BodyCode(title, body, High, policies)) ==> IsBlock(BodyCode(title, body, Medium, policies))
    ensures IsBlock(BodyCode(title, body, Medium, policies)) ==> IsBlock(BodyCode(title, body, Low, policies))
  {
    hide BodyCode, Kept;
    ExactVerdict(title, body, High, policies);
    ExactVerdict(title, body, Medium, policies);
    ExactVerdict(title, body, Low, policies);
    assert forall h :: h in Kept(title) + Kept(body) && Blocks(h, High, policies) ==> Blocks(h, Medium, policies);
    assert forall h :: h in Kept(title) + Kept(body) && Blocks(h, Medium, policies) ==> Blocks(h, Low, policies);
  }

  /**
    The verdicts at low and at high agree exactly when no kept hit blocks at low, or some kept hit that
    no policy row diverts reaches 0.88.
   */
  lemma StrictnessMattersIff(title: Scanned, body: Scanned, policies: seq<Policy>)
    ensures (IsBlock(BodyCode(title, body, Low, policies)) <==> IsBlock(BodyCode(title, body, High, policies)))
            <==> || (forall h :: h in Kept(title) + Kept(body) ==> !Blocks(h, Low, policies))
                 || (exists h :: h in Kept(title) + Kept(body) && h.score >= 0.88 && Undiverted(h, policies))
  {
    hide BodyCode, Kept, FirstMatch;
    ExactVerdict(title, body, High, policies);
    ExactVerdict(title, body, Low, policies);
    LowerThresholdBlocksMore(title, body, policies);
    assert forall h :: h in Kept(title) + Kept(body) ==>
        (Blocks(h, High, policies) <==> h.score >= 0.88 && Undiverted(h, policies));
  }

  /** One hit between the two thresholds is blocked at low and passes at high: high protects less. */
  lemma HighBlocksLess(text: string, h: Hit)
    requires text != "" && 0.65 <= h.score < 0.88
    ensures var title, body := Scanned("", []), Scanned(text, [h]);
            BodyCode(title, body, Low, []) == TableCode(h.entity) && BodyCode(title, body, High, []) == OK_0000
  {
    hide CodeOfHits, TableCode, TopKPerSpan, BlockingTypes, IsBlock;
    KeptOfOne(text, h);
    TypesOfOne(h, Low);
    TypesOfOne(h, High);
    ExactCode([], [h], Low, []);
    ExactCode([], [h], High, []);
  }

  lemma TypesOfOne(h: Hit, s: Strictness)
    ensures BlockingTypes([] + [h], s, []) == if h.score >= Threshold(s) then {h.entity} else {}
  {
    hide Threshold;
    assert [] + [h] == [h] && [h][0] == h;
    assert Blocks(h, s, []) <==> h.score >= Threshold(s);
  }

  lemma KeptOfOne(text: string, h: Hit)
    requires text != ""
    ensures Kept(Scanned(text, [h])) == [h]
  {
    OneMoreHit([], h);
    assert [] + [h] == [h];
    assert Spans([h]) == [h.Span()] && OnSpan([h], h.Span()) == [h];
    assert [h][1..] == [] && Sort([h], ScoresNoLower) == [h];
    assert [h.Span()][..0] == [];
    assert KeepEach([h], [h.Span()], 3) == [] + TopK([h], 3);
  }

  /* ---------- Truncation to the top three is harmless ---------- */

  /** No entity type is reported twice on one exact span. */
  predicate DistinctPerSpan(raw: seq<Hit>) {
    forall i, j :: 0 <= i < j < |raw| && raw[i].Span() == raw[j].Span() ==> raw[i].entity != raw[j].entity
  }

  function EntityOf(h: Hit): string { h.entity }

  lemma {:induction false} OnSpanDistinct(raw: seq<Hit>, sp: Span)
    requires DistinctPerSpan(raw)
    ensures DistinctBy(OnSpan(raw, sp), EntityOf)
  {
    if raw != [] {
      var n := |raw| - 1;
      OnSpanDistinct(raw[..n], sp);
      var before := OnSpan(raw[..n], sp);
      OnSpanMembers(raw[..n], sp);
      forall h | h in before && raw[n].Span() == sp
        ensures h.entity != raw[n].entity
      {
        var i :| 0 <= i < n && raw[i] == h;
      }
    }
  }

  // A blocking type that truncation loses is outvoted by at least two that it keeps.
  lemma LostTypeLeavesTwo(raw: seq<Hit>, s: Strictness, h: Hit)
    requires DistinctPerSpan(raw) && h in raw && Blocks(h, s, [])
    requires h !in TopKPerSpan(raw, MAX_DETECTIONS_PER_SPAN)
    ensures |BlockingTypes(TopKPerSpan(raw, MAX_DETECTIONS_PER_SPAN), s, [])| >= 2
  {
    KeptOrOutscored(raw, MAX_DETECTIONS_PER_SPAN, h);
    OnSpanDistinct(raw, h.Span());
    SortKeepsDistinct(OnSpan(raw, h.Span()), ScoresNoLower, EntityOf);
    var best := TopK(OnSpan(raw, h.Span()), MAX_DETECTIONS_PER_SPAN);
    var types := BlockingTypes(TopKPerSpan(raw, MAX_DETECTIONS_PER_SPAN), s, []);
    assert best[0] in best && best[1] in best;
    assert best[0].entity in types && best[1].entity in types && best[0].entity != best[1].entity;
    TwoMembers(types, best[0].entity, best[1].entity);
  }

  /** Whatever the hits, the top-3 cut alone never turns a BLOCK into a PASS or the other way round. */
  lemma TruncationKeepsVerdict(title: Scanned, body: Scanned, s: Strictness)
    ensures IsBlock(BodyCode(title, body, s, [])) <==> IsBlock(CodeOfHits(AllHits(title), AllHits(body), s, []))
  {
    hide CodeOfHits, TopKPerSpan, TopK;
    ExactCode(Kept(title), Kept(body), s, []);
    ExactCode(AllHits(title), AllHits(body), s, []);
    BlockSurvivesCut(title, s);
    BlockSurvivesCut(body, s);
    JoinedTypes(Kept(title), Kept(body), [], [], s, []);
    JoinedTypes(AllHits(title), AllHits(body), [], [], s, []);
  }

  lemma BlockSurvivesCut(f: Scanned, s: Strictness)
    ensures BlockingTypes(Kept(f), s, []) == {} <==> BlockingTypes(AllHits(f), s, []) == {}
  {
    hide TopKPerSpan, TopK;
    var kept, all := Kept(f), AllHits(f);
    forall h | h in kept
      ensures h in all
    {
      KeptOrOutscored(f.hits, MAX_DETECTIONS_PER_SPAN, h);
    }
    if h :| h in all && Blocks(h, s, []) {
      assert h.entity in BlockingTypes(all, s, []);
      KeptOrOutscored(f.hits, MAX_DETECTIONS_PER_SPAN, h);
      var best := TopK(OnSpan(f.hits, h.Span()), MAX_DETECTIONS_PER_SPAN);
      var g := if h in kept then h else best[0];
      assert g in kept && g.entity in BlockingTypes(kept, s, []);
    }
  }

  function AllHits(f: Scanned): seq<Hit> { if f.text == "" then [] else f.hits }

  // Cutting never adds a blocking type.
  lemma CutLosesTypes(title: Scanned, body: Scanned, s: Strictness, policies: seq<Policy>)
    ensures BlockingTypes(Kept(title) + Kept(body), s, policies)
         <= BlockingTypes(AllHits(title) + AllHits(body), s, policies)
  {
    hide TopKPerSpan, Blocks;
    var kept, all := Kept(title) + Kept(body), AllHits(title) + AllHits(body);
    forall h | h in kept
      ensures h in all
    {
      KeptOrOutscored(title.hits, MAX_DETECTIONS_PER_SPAN, h);
      KeptOrOutscored(body.hits, MAX_DETECTIONS_PER_SPAN, h);
    }
  }

  /* ---------- The cut in terms of the raw hits ---------- */

  /** Hits that score more than v. */
  function Higher(hits: seq<Hit>, v: real): nat {
    if hits == [] then 0 else (if hits[0].score > v then 1 else 0) + Higher(hits[1..], v)
  }

  /** Hits that score exactly v. */
  function Tied(hits: seq<Hit>, v: real): nat {
    if hits == [] then 0 else (if hits[0].score == v then 1 else 0) + Tied(hits[1..], v)
  }

  /** How many hits go before hit i: those that score more, and those that tie and were found earlier. */
  function RankOf(hits: seq<Hit>, i: nat): nat
    requires i < |hits|
  {
    Higher(hits, hits[i].score) + Tied(hits[..i], hits[i].score)
  }

  lemma {:induction false} InsertHigher(x: Hit, s: seq<Hit>, v: real)
    ensures Higher(Insert(x, s, ScoresNoLower), v) == Higher([x] + s, v)
  {
    assert ([x] + s)[1..] == s;
    if s != [] && !ScoresNoLower(x, s[0]) {
      InsertHigher(x, s[1..], v);
      assert ([x] + s[1..])[1..] == s[1..];
      assert Insert(x, s, ScoresNoLower)[1..] == Insert(x, s[1..], ScoresNoLower);
    }
  }

  lemma {:induction false} SortHigher(hits: seq<Hit>, v: real)
    ensures Higher(Sort(hits, ScoresNoLower), v) == Higher(hits, v)
  {
    if hits != [] {
      SortHigher(hits[1..], v);
      var rest := Sort(hits[1..], ScoresNoLower);
      InsertHigher(hits[0], rest, v);
      assert ([hits[0]] + rest)[1..] == rest;
    }
  }

  // In a ranked list the hits above v come first.
  lemma {:induction false} HigherComeFirst(s: seq<Hit>, v: real)
    requires Sorted(s, ScoresNoLower)
    ensures Higher(s, v) <= |s|
    ensures forall q :: 0 <= q < |s| ==> (s[q].score > v <==> q < Higher(s, v))
  {
    if s != [] {
      HigherComeFirst(s[1..], v);
      forall q | 0 <= q < |s|
        ensures s[q].score > v <==> q < Higher(s, v)
      {
        if q > 0 {
          assert s[q] == s[1..][q - 1];
          assert s[0].score >= s[q].score;
        } else if s[0].score <= v && |s| > 1 {
          assert s[1..][0] == s[1] && s[0].score >= s[1].score;
        }
      }
    }
  }

  // Insertion puts a hit right behind those that score more.
  lemma {:induction false} InsertPosition(x: Hit, s: seq<Hit>)
    requires Sorted(s, ScoresNoLower)
    ensures Higher(s, x.score) <= |s|
    ensures var p := Higher(s, x.score);
            Insert(x, s, ScoresNoLower) == s[..p] + [x] + s[p..]
  {
    HigherComeFirst(s, x.score);
    if s != [] && !ScoresNoLower(x, s[0]) {
      InsertPosition(x, s[1..]);
      assert s == [s[0]] + s[1..];
      hide Higher;
      ConsSplit(s[0], s[1..], Higher(s[1..], x.score), x);
    }
  }

  lemma ConsSplit(a: Hit, t: seq<Hit>, p: nat, x: Hit)
    requires p <= |t|
    ensures [a] + (t[..p] + [x] + t[p..]) == ([a] + t)[..p + 1] + [x] + ([a] + t)[p + 1..]
  {
    assert ([a] + t)[..p + 1] == [a] + t[..p] && ([a] + t)[p + 1..] == t[p..];
  }

  /** Sorting puts every hit at its rank. */
  lemma {:induction false} SortedAtRank(hits: seq<Hit>, i: nat)
    requires i < |hits|
    ensures RankOf(hits, i) < |hits|
    ensures Sort(hits, ScoresNoLower)[RankOf(hits, i)] == hits[i]
  {
    var x, sorted := hits[0], Sort(hits[1..], ScoresNoLower);
    SortSorts(hits[1..], ScoresNoLower);
    SortHigher(hits[1..], x.score);
    SortFirst(hits);
    if i == 0 {
      InsertPosition(x, sorted);
    } else {
      SortedAtRank(hits[1..], i - 1);
      RankGrows(hits, i);
      hide RankOf, Higher, Sort, Insert;
      InsertShifts(x, sorted, RankOf(hits[1..], i - 1));
    }
  }

  // Insertion leaves what scores more in place and moves the rest back by one.
  lemma InsertShifts(x: Hit, s: seq<Hit>, q: nat)
    requires Sorted(s, ScoresNoLower) && q < |s|
    ensures Insert(x, s, ScoresNoLower)[q + if x.score >= s[q].score then 1 else 0] == s[q]
  {
    InsertPosition(x, s);
    HigherComeFirst(s, x.score);
  }

  lemma SortFirst(hits: seq<Hit>)
    requires hits != []
    ensures Sort(hits, ScoresNoLower) == Insert(hits[0], Sort(hits[1..], ScoresNoLower), ScoresNoLower)
  {
  }

  // A hit in front moves those it scores no lower than back by one.
  lemma RankGrows(hits: seq<Hit>, i: nat)
    requires 0 < i < |hits|
    ensures RankOf(hits, i) == RankOf(hits[1..], i - 1) + if hits[0].score >= hits[i].score then 1 else 0
  {
    assert hits[..i][0] == hits[0] && hits[..i][1..] == hits[1..][..i - 1];
  }

  /** Fewer than k hits with the hit's own start and end go before it. */
  predicate RanksBelow(raw: seq<Hit>, k: nat, h: Hit) {
    var on := OnSpan(raw, (h.start, h.end));
    exists i :: 0 <= i < |on| && on[i] == h && RankOf(on, i) < k
  }

  // Different hits have different ranks.
  lemma {:induction false} RankAtSorted(hits: seq<Hit>, q: nat) returns (i: nat)
    requires q < |hits|
    ensures i < |hits| && RankOf(hits, i) == q
  {
    var x, t := hits[0], hits[1..];
    var sorted := Sort(t, ScoresNoLower);
    var p := Higher(t, x.score);
    HigherAtMost(t, x.score);
    if q == p {
      i := 0;
    } else {
      var j := RankAtSorted(t, if q < p then q else q - 1);
      i := j + 1;
      assert hits[..i][0] == x && hits[..i][1..] == t[..j];
      SortSorts(t, ScoresNoLower);
      SortHigher(t, x.score);
      HigherComeFirst(sorted, x.score);
      SortedAtRank(t, j);
    }
  }

  lemma {:induction false} HigherAtMost(hits: seq<Hit>, v: real)
    ensures Higher(hits, v) <= |hits|
  {
    if hits != [] {
      HigherAtMost(hits[1..], v);
    }
  }

  lemma TopKIffRank(hits: seq<Hit>, k: nat, h: Hit)
    ensures h in TopK(hits, k) <==> exists i :: 0 <= i < |hits| && hits[i] == h && RankOf(hits, i) < k
  {
    var ranked := Sort(hits, ScoresNoLower);
    if h in TopK(hits, k) {
      var q :| 0 <= q < |ranked| && q < k && ranked[q] == h;
      var i := RankAtSorted(hits, q);
      SortedAtRank(hits, i);
    }
    if i :| 0 <= i < |hits| && hits[i] == h && RankOf(hits, i) < k {
      SortedAtRank(hits, i);
      assert TopK(hits, k)[RankOf(hits, i)] == h;
    }
  }

  /** A hit is kept exactly when fewer than k hits of its span score more, or tie and were found earlier. */
  lemma KeptIffRank(raw: seq<Hit>, k: nat, h: Hit)
    ensures h in TopKPerSpan(raw, k) <==> RanksBelow(raw, k, h)
  {
    hide TopK, KeepEach, RankOf;
    var on := OnSpan(raw, h.Span());
    OnSpanMembers(raw, h.Span());
    TopKIffRank(on, k, h);
    if h in TopKPerSpan(raw, k) {
      var sp := KeptFromSomeSpan(raw, Spans(raw), k, h);
      TopKFacts(OnSpan(raw, sp), k, h);
      OnSpanMembers(raw, sp);
    } else if h in TopK(on, k) {
      TopKFacts(on, k, h);
      KeptOnEachSpan(raw, Spans(raw), k, h.Span(), h);
    }
  }

  /** What is analysed of a field: nothing of an empty text, otherwise the three best hits of every exact span. */
  lemma KeptExactly(f: Scanned, h: Hit)
    ensures h in Kept(f) <==> f.text != "" && RanksBelow(f.hits, 3, h)
  {
    KeptIffRank(f.hits, 3, h);
  }

  /** The types of the blocking hits among the first three of their spans. */
  function LeadingTypes(f: Scanned, s: Strictness, policies: seq<Policy>): set<string> {
    set h | h in AllHits(f) && RanksBelow(f.hits, MAX_DETECTIONS_PER_SPAN, h) && Blocks(h, s, policies) :: h.entity
  }

  lemma KeptTypesLead(f: Scanned, s: Strictness, policies: seq<Policy>)
    ensures BlockingTypes(Kept(f), s, policies) == LeadingTypes(f, s, policies)
  {
    hide TopKPerSpan, Blocks, RanksBelow;
    forall h
      ensures h in Kept(f) <==> h in AllHits(f) && RanksBelow(f.hits, MAX_DETECTIONS_PER_SPAN, h)
    {
      KeptIffRank(f.hits, MAX_DETECTIONS_PER_SPAN, h);
      KeptOrOutscored(f.hits, MAX_DETECTIONS_PER_SPAN, h);
    }
  }

  /**
    Under any policies the top-3 cut leaves the response code alone exactly when every blocking type
    has a blocking hit among the first three of its span, or at least two types have.
   */
  lemma TruncationHarmlessIff(title: Scanned, body: Scanned, s: Strictness, policies: seq<Policy>)
    ensures var leading := LeadingTypes(title, s, policies) + LeadingTypes(body, s, policies);
            var all := BlockingTypes(AllHits(title) + AllHits(body), s, policies);
            && leading == BlockingTypes(Kept(title) + Kept(body), s, policies)
            && (BodyCode(title, body, s, policies) == CodeOfHits(AllHits(title), AllHits(body), s, policies)
                <==> leading == all || |leading| >= 2)
  {
    hide CodeOfHits, Kept, BlockingTypes, LeadingTypes;
    KeptTypesLead(title, s, policies);
    KeptTypesLead(body, s, policies);
    JoinedTypes(Kept(title), Kept(body), [], [], s, policies);
    var kept := BlockingTypes(Kept(title) + Kept(body), s, policies);
    var all := BlockingTypes(AllHits(title) + AllHits(body), s, policies);
    CutLosesTypes(title, body, s, policies);
    ExactCode(Kept(title), Kept(body), s, policies);
    ExactCode(AllHits(title), AllHits(body), s, policies);
    SubsetCount(kept, all);
    if kept == all {
      SameTypesSameCode(Kept(title), Kept(body), s, policies, AllHits(title), AllHits(body), policies);
    } else if kept != {} && |kept| < 2 {
      var t :| t in kept;
      var u :| u in all && u !in kept;
      Singleton(kept, t);
      TwoMembers(all, t, u);
    }
  }

  /** With no policy rows and no type reported twice on a span, the top-3 cut never changes the code. */
  lemma TruncationIsHarmless(title: Scanned, body: Scanned, s: Strictness)
    requires DistinctPerSpan(title.hits) && DistinctPerSpan(body.hits)
    ensures BodyCode(title, body, s, []) == CodeOfHits(AllHits(title), AllHits(body), s, [])
  {
    hide CodeOfHits, TopKPerSpan, Blocks;
    var kept, all := Kept(title) + Kept(body), AllHits(title) + AllHits(body);
    TruncationHarmlessIff(title, body, s, []);
    CutLosesTypes(title, body, s, []);
    if BlockingTypes(kept, s, []) != BlockingTypes(all, s, []) {
      var h :| h in all && Blocks(h, s, []) && h.entity !in BlockingTypes(kept, s, []);
      assert h !in kept;
      var f := if h in AllHits(title) then title else body;
      LostTypeLeavesTwo(f.hits, s, h);
      SubsetCount(BlockingTypes(Kept(f), s, []), BlockingTypes(kept, s, []));
    }
  }

  lemma SpanOfFour(a: Hit, b: Hit, c: Hit, d: Hit)
    requires a.Span() == b.Span() == c.Span() == d.Span()
    ensures Spans([a, b, c, d]) == [a.Span()] && OnSpan([a, b, c, d], a.Span()) == [a, b, c, d]
  {
    hide OnSpan, Spans;
    NoSpans(a.Span());
    OneMoreHit([], a);
    OneMoreHit([a], b);
    OneMoreHit([a, b], c);
    OneMoreHit([a, b, c], d);
    assert [] + [a] == [a] && [a] + [b] == [a, b] && [a, b] + [c] == [a, b, c] && [a, b, c] + [d] == [a, b, c, d];
  }

  lemma NoSpans(sp: Span)
    ensures Spans([]) == [] && OnSpan([], sp) == []
  {
  }

  lemma SortStep(x: Hit, s: seq<Hit>)
    ensures Sort([x] + s, ScoresNoLower) == Insert(x, Sort(s, ScoresNoLower), ScoresNoLower)
  {
    assert ([x] + s)[1..] == s;
  }

  // A hit that all others outscore goes last.
  lemma {:induction false} InsertLast(x: Hit, s: seq<Hit>)
    requires forall h :: h in s ==> h.score > x.score
    ensures Insert(x, s, ScoresNoLower) == s + [x]
  {
    if s != [] {
      assert s[0] in s;
      InsertLast(x, s[1..]);
    }
  }

  // Equal hits stay as they are.
  lemma {:induction false} SortEqual(s: seq<Hit>)
    requires forall i, j :: 0 <= i < j < |s| ==> s[i] == s[j]
    ensures Sort(s, ScoresNoLower) == s
  {
    if s != [] {
      SortEqual(s[1..]);
    }
  }

  lemma LowestGoes(x: Hit, y: Hit)
    requires x.score < y.score
    ensures TopK([x, y, y, y], 3) == [y, y, y]
  {
    hide Sort, Insert;
    SortEqual([y, y, y]);
    InsertLast(x, [y, y, y]);
    SortStep(x, [y, y, y]);
    assert [x] + [y, y, y] == [x, y, y, y];
  }

  lemma KeptOfFour(text: string, x: Hit, y: Hit)
    requires text != "" && x.Span() == y.Span() && x.score < y.score
    ensures Kept(Scanned(text, [x, y, y, y])) == [y, y, y]
  {
    hide TopK, OnSpan, Spans;
    SpanOfFour(x, y, y, y);
    LowestGoes(x, y);
    assert [x.Span()][..0] == [];
    assert KeepEach([x, y, y, y], [x.Span()], 3) == [] + TopK([x, y, y, y], 3);
  }

  lemma TypesOfFour(x: Hit, y: Hit, s: Strictness)
    requires x.entity != y.entity && Blocks(x, s, []) && Blocks(y, s, [])
    ensures BlockingTypes([] + [y, y, y], s, []) == {y.entity}
    ensures |BlockingTypes([] + [x, y, y, y], s, [])| >= 2
  {
    hide Blocks;
    var kept, raw := [] + [y, y, y], [] + [x, y, y, y];
    assert kept[0] == y && raw[0] == x && raw[1] == y;
    assert forall h :: h in kept ==> h == y;
    assert y.entity in BlockingTypes(kept, s, []);
    TwoMembers(BlockingTypes(raw, s, []), x.entity, y.entity);
  }

  /** Without the second condition it can: three hits of one type push another type's hit out. */
  lemma RepeatedTypeHidesAnother(text: string, x: Hit, y: Hit, s: Strictness)
    requires text != "" && x.Span() == y.Span() && x.entity != y.entity && Threshold(s) <= x.score < y.score
    ensures var title, body := Scanned("", []), Scanned(text, [x, y, y, y]);
            && BodyCode(title, body, s, []) == TableCode(y.entity)
            && CodeOfHits(AllHits(title), AllHits(body), s, []) == BLOCK_2008
  {
    hide CodeOfHits, TableCode, TopKPerSpan, BlockingTypes, IsBlock, Threshold;
    KeptOfFour(text, x, y);
    ExactCode([], [y, y, y], s, []);
    ExactCode([], [x, y, y, y], s, []);
    TypesOfFour(x, y, s);
  }

  /**
    Against a whole table a hit blocks exactly when it reaches the threshold and every enabled row
    that wins for it, if there is one, says BLOCK or WARN.
   */
  lemma BlocksByTable(h: Hit, s: Strictness, table: seq<Policy>)
    requires UniqueBands(table)
    ensures Blocks(h, s, ListActivePolicies(table)) <==>
              && h.score >= Threshold(s)
              && forall p :: Wins(p, table, h.entity, h.score) ==> p.action.Block? || p.action.Warn?
  {
    hide ListActivePolicies, FirstMatch, UniqueBands, Threshold;
    var found := FirstMatch(ListActivePolicies(table), h.entity, h.score);
    FirstMatchIsNarrowest(table, h.entity, h.score);
    forall p | Wins(p, table, h.entity, h.score)
      ensures found == Some(p)
    {
      WinnerIsUnique(table, p, found.value, h.entity, h.score);
    }
  }

  /** The verdict depends on the policy table only through the content of its enabled rows. */
  lemma VerdictIgnoresTableOrder(title: Scanned, body: Scanned, s: Strictness, t1: seq<Policy>, t2: seq<Policy>)
    requires UniqueBands(t1) && UniqueBands(t2) && EnabledContent(t1) == EnabledContent(t2)
    ensures BodyCode(title, body, s, ListActivePolicies(t1)) == BodyCode(title, body, s, ListActivePolicies(t2))
  {
    hide CodeOfHits, Kept, ListActivePolicies, FirstMatch, UniqueBands, EnabledContent;
    var p1, p2 := ListActivePolicies(t1), ListActivePolicies(t2);
    var hits := Kept(title) + Kept(body);
    forall h | h in hits
      ensures Blocks(h, s, p1) <==> Blocks(h, s, p2)
    {
      ResolutionIgnoresOrderAndInactiveRows(t1, t2, h.entity, h.score, Action.Block, OK_0000);
    }
    assert BlockingTypes(hits, s, p1) == BlockingTypes(hits, s, p2);
    SameTypesSameCode(Kept(title), Kept(body), s, p1, Kept(title), Kept(body), p2);
  }

  /* ---------- The order of the raw hits ---------- */

  /** The same hits in another order. */
  predicate Reordered(f: Scanned, g: Scanned) {
    f.text == g.text && multiset(f.hits) == multiset(g.hits)
  }

  /** With no policy rows and no type reported twice on a span, the order of the raw hits does not matter. */
  lemma CodeIgnoresRawOrder(t1: Scanned, b1: Scanned, t2: Scanned, b2: Scanned, s: Strictness)
    requires Reordered(t1, t2) && Reordered(b1, b2)
    requires DistinctPerSpan(t1.hits) && DistinctPerSpan(b1.hits)
    ensures BodyCode(t1, b1, s, []) == BodyCode(t2, b2, s, [])
  {
    DistinctIgnoresOrder(t1.hits, t2.hits);
    DistinctIgnoresOrder(b1.hits, b2.hits);
    hide BodyCode, CodeOfHits, DistinctPerSpan;
    TruncationIsHarmless(t1, b1, s);
    TruncationIsHarmless(t2, b2, s);
    SameElements(t1.hits, t2.hits);
    SameElements(b1.hits, b2.hits);
    VerdictIgnoresOrder(AllHits(t1), AllHits(b1), AllHits(t2), AllHits(b2), s, []);
  }

  // A hit that occurs twice has two places, and the other way round.
  lemma {:induction false} TwoPlaces(r: seq<Hit>, h: Hit) returns (i: nat, j: nat)
    requires multiset(r)[h] >= 2
    ensures i < j < |r| && r[i] == h && r[j] == h
  {
    var n := |r| - 1;
    assert r == r[..n] + [r[n]];
    if r[n] == h {
      assert multiset(r[..n])[h] >= 1;
      assert h in r[..n];
      i :| 0 <= i < n && r[i] == h;
      j := n;
    } else {
      i, j := TwoPlaces(r[..n], h);
    }
  }

  lemma TwoOccurrences(r: seq<Hit>, i: nat, j: nat)
    requires i < j < |r| && r[i] == r[j]
    ensures multiset(r)[r[i]] >= 2
  {
    assert r == r[..j] + r[j..];
    assert r[..j][i] in r[..j] && r[j..][0] in r[j..];
    assert multiset(r[..j])[r[i]] >= 1 && multiset(r[j..])[r[i]] >= 1;
  }

  lemma DistinctIgnoresOrder(r1: seq<Hit>, r2: seq<Hit>)
    requires multiset(r1) == multiset(r2) && DistinctPerSpan(r1)
    ensures DistinctPerSpan(r2)
  {
    forall i, j | 0 <= i < j < |r2| && r2[i].Span() == r2[j].Span()
      ensures r2[i].entity != r2[j].entity
    {
      if r2[i] == r2[j] {
        TwoOccurrences(r2, i, j);
        var k, l := TwoPlaces(r1, r2[i]);
        assert false;
      } else {
        SameElements(r1, r2);
        assert r2[i] in r1 && r2[j] in r1;
        var k :| 0 <= k < |r1| && r1[k] == r2[i];
        var l :| 0 <= l < |r1| && r1[l] == r2[j];
      }
    }
  }

  /** No tie is cut: of hits with one score on one span, all are kept or none. */
  predicate NoTieAtCut(raw: seq<Hit>) {
    forall h :: h in raw ==>
      var on := OnSpan(raw, h.Span());
      || MAX_DETECTIONS_PER_SPAN <= Higher(on, h.score)
      || Higher(on, h.score) + Tied(on, h.score) <= MAX_DETECTIONS_PER_SPAN
  }

  lemma {:induction false} CountsConcat(a: seq<Hit>, b: seq<Hit>, v: real)
    ensures Higher(a + b, v) == Higher(a, v) + Higher(b, v) && Tied(a + b, v) == Tied(a, v) + Tied(b, v)
  {
    if a == [] {
      assert a + b == b;
    } else {
      assert (a + b)[0] == a[0] && (a + b)[1..] == a[1..] + b;
      CountsConcat(a[1..], b, v);
    }
  }

  // Taking out one hit lowers the counts by what it contributes.
  lemma CountsWithout(b: seq<Hit>, i: nat, v: real)
    requires i < |b|
    ensures var rest := b[..i] + b[i + 1..];
            && multiset(rest) == multiset(b) - multiset{b[i]}
            && Higher(b, v) == Higher(rest, v) + Higher([b[i]], v)
            && Tied(b, v) == Tied(rest, v) + Tied([b[i]], v)
  {
    var u, w := b[..i], b[i + 1..];
    assert b == u + ([b[i]] + w);
    assert multiset(b) == multiset(u) + (multiset{b[i]} + multiset(w));
    hide Higher, Tied;
    CountsConcat(u, [b[i]] + w, v);
    CountsConcat([b[i]], w, v);
    CountsConcat(u, w, v);
  }

  // The two counts do not depend on the order.
  lemma {:induction false} CountsIgnoreOrder(a: seq<Hit>, b: seq<Hit>, v: real)
    requires multiset(a) == multiset(b)
    ensures Higher(a, v) == Higher(b, v) && Tied(a, v) == Tied(b, v)
    decreases |a|
  {
    hide Higher, Tied;
    if a == [] {
      SameElements(a, b);
    } else {
      var i := FirstFound(a, b);
      CountsWithout(a, 0, v);
      CountsWithout(b, i, v);
      CountsIgnoreOrder(a[..0] + a[1..], b[..i] + b[i + 1..], v);
    }
  }

  lemma FirstFound(a: seq<Hit>, b: seq<Hit>) returns (i: nat)
    requires multiset(a) == multiset(b) && a != []
    ensures i < |b| && b[i] == a[0]
  {
    SameElements(a, b);
    assert a[0] in b;
    i :| 0 <= i < |b| && b[i] == a[0];
  }

  lemma {:induction false} OnSpanCounts(raw: seq<Hit>, sp: Span, h: Hit)
    ensures multiset(OnSpan(raw, sp))[h] == if h.Span() == sp then multiset(raw)[h] else 0
  {
    if raw != [] {
      var n := |raw| - 1;
      OnSpanCounts(raw[..n], sp, h);
      assert raw == raw[..n] + [raw[n]];
    }
  }

  lemma OnSpanIgnoresOrder(r1: seq<Hit>, r2: seq<Hit>, sp: Span)
    requires multiset(r1) == multiset(r2)
    ensures multiset(OnSpan(r1, sp)) == multiset(OnSpan(r2, sp))
  {
    forall h
      ensures multiset(OnSpan(r1, sp))[h] == multiset(OnSpan(r2, sp))[h]
    {
      OnSpanCounts(r1, sp, h);
      OnSpanCounts(r2, sp, h);
    }
  }

  lemma {:induction false} TiedAtMost(hits: seq<Hit>, i: nat)
    requires i < |hits|
    ensures Tied(hits[..i], hits[i].score) < Tied(hits, hits[i].score)
  {
    var v := hits[i].score;
    assert hits == hits[..i] + ([hits[i]] + hits[i + 1..]);
    CountsConcat(hits[..i], [hits[i]] + hits[i + 1..], v);
    CountsConcat([hits[i]], hits[i + 1..], v);
  }

  // Where no tie is cut, a hit is kept exactly when fewer than three of its span score more.
  lemma KeptWithoutTies(raw: seq<Hit>, h: Hit)
    requires h in raw
    requires var on := OnSpan(raw, h.Span());
             || MAX_DETECTIONS_PER_SPAN <= Higher(on, h.score)
             || Higher(on, h.score) + Tied(on, h.score) <= MAX_DETECTIONS_PER_SPAN
    ensures h in TopKPerSpan(raw, MAX_DETECTIONS_PER_SPAN)
            <==> Higher(OnSpan(raw, h.Span()), h.score) < MAX_DETECTIONS_PER_SPAN
  {
    var on := OnSpan(raw, h.Span());
    hide TopKPerSpan, OnSpan, Higher, Tied;
    KeptIffRank(raw, MAX_DETECTIONS_PER_SPAN, h);
    OnSpanMembers(raw, h.Span());
    assert h in on;
    var i :| 0 <= i < |on| && on[i] == h;
    TiedAtMost(on, i);
    assert RankOf(on, i) == Higher(on, h.score) + Tied(on[..i], h.score);
  }

  lemma KeptIgnoresOrder(r1: seq<Hit>, r2: seq<Hit>, h: Hit)
    requires multiset(r1) == multiset(r2) && NoTieAtCut(r1)
    ensures h in TopKPerSpan(r1, MAX_DETECTIONS_PER_SPAN) <==> h in TopKPerSpan(r2, MAX_DETECTIONS_PER_SPAN)
  {
    hide TopKPerSpan, OnSpan, Higher, Tied;
    SameElements(r1, r2);
    KeptOrOutscored(r1, MAX_DETECTIONS_PER_SPAN, h);
    KeptOrOutscored(r2, MAX_DETECTIONS_PER_SPAN, h);
    if h in r1 {
      OnSpanIgnoresOrder(r1, r2, h.Span());
      CountsIgnoreOrder(OnSpan(r1, h.Span()), OnSpan(r2, h.Span()), h.score);
      KeptWithoutTies(r1, h);
      KeptWithoutTies(r2, h);
    }
  }

  /** Under any policies the order of the raw hits can matter only through a tie at the cut. */
  lemma OnlyTiesMatter(t1: Scanned, b1: Scanned, t2: Scanned, b2: Scanned, s: Strictness, policies: seq<Policy>)
    requires Reordered(t1, t2) && Reordered(b1, b2) && NoTieAtCut(t1.hits) && NoTieAtCut(b1.hits)
    ensures BodyCode(t1, b1, s, policies) == BodyCode(t2, b2, s, policies)
  {
    hide CodeOfHits, TopKPerSpan, NoTieAtCut;
    forall h
      ensures h in Kept(t1) + Kept(b1) <==> h in Kept(t2) + Kept(b2)
    {
      KeptIgnoresOrder(t1.hits, t2.hits, h);
      KeptIgnoresOrder(b1.hits, b2.hits, h);
    }
    VerdictIgnoresOrder(Kept(t1), Kept(b1), Kept(t2), Kept(b2), s, policies);
  }

  // Hits with one score stay in the order they were found in.
  lemma {:induction false} SortTied(hits: seq<Hit>)
    requires forall i, j :: 0 <= i < j < |hits| ==> hits[i].score == hits[j].score
    ensures Sort(hits, ScoresNoLower) == hits
  {
    if hits != [] {
      SortTied(hits[1..]);
    }
  }

  lemma KeptOfTied(text: string, hits: seq<Hit>, sp: Span)
    requires text != "" && |hits| == 4
    requires forall i, j :: 0 <= i < j < 4 ==> hits[i].score == hits[j].score
    requires Spans(hits) == [sp] && OnSpan(hits, sp) == hits
    ensures Kept(Scanned(text, hits)) == hits[..3]
  {
    SortTied(hits);
    assert [sp][..0] == [];
    assert TopK(hits, 3) == hits[..3];
    hide TopK, OnSpan, Spans;
    assert KeepEach(hits, [sp], 3) == [] + TopK(hits, 3);
  }

  /** Such a tie does matter: found last of four that tie, a hit of another type is lost; found first, it is not. */
  lemma TieAtCutMatters(text: string, x: Hit, y: Hit, s: Strictness)
    requires text != "" && x.Span() == y.Span() && x.entity != y.entity && Threshold(s) <= x.score == y.score
    ensures var title, last, first := Scanned("", []), Scanned(text, [y, y, y, x]), Scanned(text, [x, y, y, y]);
            && Reordered(last, first)
            && BodyCode(title, last, s, []) == TableCode(y.entity)
            && BodyCode(title, first, s, []) == BLOCK_2008
  {
    hide BodyCode, TableCode, Threshold;
    TiedLast(text, x, y, s);
    TiedFirst(text, x, y, s);
    assert multiset([y, y, y, x]) == multiset([x, y, y, y]);
  }

  lemma TiedLast(text: string, x: Hit, y: Hit, s: Strictness)
    requires text != "" && x.Span() == y.Span() && x.entity != y.entity && Threshold(s) <= x.score == y.score
    ensures BodyCode(Scanned("", []), Scanned(text, [y, y, y, x]), s, []) == TableCode(y.entity)
  {
    hide CodeOfHits, TableCode, TopKPerSpan, BlockingTypes, IsBlock, Threshold, OnSpan, Spans;
    SpanOfFour(y, y, y, x);
    KeptOfTied(text, [y, y, y, x], x.Span());
    assert [y, y, y, x][..3] == [y, y, y];
    TypesOfFour(x, y, s);
    ExactCode([], [y, y, y], s, []);
  }

  lemma TiedFirst(text: string, x: Hit, y: Hit, s: Strictness)
    requires text != "" && x.Span() == y.Span() && x.entity != y.entity && Threshold(s) <= x.score == y.score
    ensures BodyCode(Scanned("", []), Scanned(text, [x, y, y, y]), s, []) == BLOCK_2008
  {
    hide CodeOfHits, TableCode, TopKPerSpan, BlockingTypes, IsBlock, Threshold, OnSpan, Spans;
    SpanOfFour(x, y, y, y);
    KeptOfTied(text, [x, y, y, y], x.Span());
    assert [x, y, y, y][..3] == [x, y, y];
    TypesOfThree(x, y, s);
    ExactCode([], [x, y, y], s, []);
  }

  lemma TypesOfThree(x: Hit, y: Hit, s: Strictness)
    requires x.entity != y.entity && Blocks(x, s, []) && Blocks(y, s, [])
    ensures |BlockingTypes([] + [x, y, y], s, [])| >= 2
  {
    hide Blocks;
    var kept := [] + [x, y, y];
    assert kept[0] == x && kept[1] == y;
    TwoMembers(BlockingTypes(kept, s, []), x.entity, y.entity);
  }
}
