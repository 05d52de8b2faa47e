/**
  Database policies: the pii_policies table (app/db/models.py), its CRUD (app/db/crud.py) and the
  first-match resolver of app/core/policy_engine.py.
 */
module PolicyEngine {
  import opened Wrappers
  import opened Ordering
  import opened Policies

  datatype Action = Block | Warn | Mask | LogOnly | Pass

  datatype Mode = Enabled | Shadow | Disabled

  datatype Policy = Policy(id: nat, entity: string, scoreMin: real, scoreMax: real, action: Action, mode: Mode) {
    function Width(): real { scoreMax - scoreMin }

    predicate Matches(e: string, score: real) {
      entity == e && scoreMin <= score <= scoreMax
    }

    // The row without its surrogate key.
    function Content(): Policy { this.(id := 0) }
  }

  /* ---------- The table ---------- */

  predicate SameBand(p: Policy, q: Policy) {
    p.entity == q.entity && p.scoreMin == q.scoreMin && p.scoreMax == q.scoreMax && p.mode == q.mode
  }

  /** uq_pii_policies_entity_band_mode. */
  predicate UniqueBands(table: seq<Policy>) {
    forall i, j :: 0 <= i < j < |table| ==> !SameBand(table[i], table[j])
  }

  /** ck_pii_policies_score_band. */
  predicate BandsInRange(table: seq<Policy>) {
    forall i :: 0 <= i < |table| ==> 0.0 <= table[i].scoreMin <= table[i].scoreMax <= 1.0
  }

  datatype AddResult = Added(row: Policy) | BandInvalid | Duplicate

  class PolicyTable {
    var rows: seq<Policy>
    var nextId: nat

    ghost predicate Valid()
      reads this
    {
      && UniqueBands(rows) && BandsInRange(rows)
      && (forall i :: 0 <= i < |rows| ==> rows[i].id < nextId)
      && (forall i, j :: 0 <= i < j < |rows| ==> rows[i].id != rows[j].id)
    }

    constructor ()
      ensures Valid() && rows == []
    {
      rows, nextId := [], 0;
    }

    /** Rejects a bad band, then a duplicate (entity, band, mode); otherwise appends the row. */
    method AddPolicy(entity: string, scoreMin: real, scoreMax: real, action: Action, mode: Mode) returns (r: AddResult)
      requires Valid()
      modifies this
      ensures Valid()
      ensures r.BandInvalid? <==> !(0.0 <= scoreMin <= scoreMax <= 1.0)
      ensures r.Duplicate? <==>
                && !r.BandInvalid?
                && exists q :: q in old(rows) && q.entity == entity && q.scoreMin == scoreMin
                               && q.scoreMax == scoreMax && q.mode == mode
      ensures r.Added? ==> r.row.Content() == Policy(0, entity, scoreMin, scoreMax, action, mode)
      ensures rows == if r.Added? then old(rows) + [r.row] else old(rows)
    {
      if !(0.0 <= scoreMin <= scoreMax <= 1.0) {
        return BandInvalid;
      }
      var row := Policy(nextId, entity, scoreMin, scoreMax, action, mode);
      if exists q :: q in rows && SameBand(q, row) {
        return Duplicate;
      }
      rows, nextId := rows + [row], nextId + 1;
      r := Added(row);
    }
  }

  /* ---------- list_active_policies ---------- */

  /** ORDER BY width ASC, score_min DESC, id ASC. */
  predicate Precedes(p: Policy, q: Policy) {
    || p.Width() < q.Width()
    || (p.Width() == q.Width() && (p.scoreMin > q.scoreMin || (p.scoreMin == q.scoreMin && p.id <= q.id)))
  }

  function OnlyEnabled(table: seq<Policy>): (r: seq<Policy>)
    ensures forall p :: p in r <==> p in table && p.mode.Enabled?
  {
    if table == [] then []
    else (if table[0].mode.Enabled? then [table[0]] else []) + OnlyEnabled(table[1..])
  }

  function ListActivePolicies(table: seq<Policy>): seq<Policy> {
    Sort(OnlyEnabled(table), Precedes)
  }

  /* ---------- resolve_action ---------- */

  function FirstMatch(policies: seq<Policy>, e: string, score: real): Option<Policy> {
    if policies == [] then None
    else if policies[0].Matches(e, score) then Some(policies[0])
    else FirstMatch(policies[1..], e, score)
  }

  function ActionToCode(a: Action, fallback: Code): Code {
    match a
    case Mask => WARN_1010
    case LogOnly => OK_0000
    case Pass => OK_0000
    case Block => fallback
    case Warn => fallback
  }

  datatype Resolved = Resolved(action: Action, code: Code, fromDb: bool)

  function ResolveAction(e: string, score: real, defaultAction: Action, defaultCode: Code,
                         policies: seq<Policy>): Resolved {
    match FirstMatch(policies, e, score)
    case Some(p) => Resolved(p.action, ActionToCode(p.action, defaultCode), true)
    case None => Resolved(defaultAction, defaultCode, false)
  }

  /* ---------- The declarative rule ---------- */

  /** The documented rule: narrowest enabled matching band, ties by highest score_min. */
  predicate Wins(p: Policy, table: seq<Policy>, e: string, score: real) {
    && p in table && p.mode.Enabled? && p.Matches(e, score)
    && forall q :: q in table && q.mode.Enabled? && q.Matches(e, score) ==>
         p.Width() < q.Width() || (p.Width() == q.Width() && p.scoreMin >= q.scoreMin)
  }

  lemma {:induction false} FirstMatchInOrder(policies: seq<Policy>, e: string, score: real)
    requires Sorted(policies, Precedes)
    ensures FirstMatch(policies, e, score).None? <==> forall p :: p in policies ==> !p.Matches(e, score)
    ensures forall w :: FirstMatch(policies, e, score) == Some(w) ==>
              w in policies && w.Matches(e, score)
              && forall q :: q in policies && q.Matches(e, score) ==> q == w || Precedes(w, q)
  {
    if policies != [] {
      FirstMatchInOrder(policies[1..], e, score);
      assert forall q :: q in policies ==> q == policies[0] || q in policies[1..];
    }
  }

  /** First match over the SQL order is the declarative rule, for every table. */
  lemma FirstMatchIsNarrowest(table: seq<Policy>, e: string, score: real)
    ensures var found := FirstMatch(ListActivePolicies(table), e, score);
            && (found.None? <==> forall p :: p in table && p.mode.Enabled? ==> !p.Matches(e, score))
            && (found.Some? ==> Wins(found.value, table, e, score))
            && (found.Some? ==> forall q :: q in table && q.mode.Enabled? && q.Matches(e, score) ==>
                  q == found.value || Precedes(found.value, q))
  {
    var listing := ListActivePolicies(table);
    SortSorts(OnlyEnabled(table), Precedes);
    SameElements(listing, OnlyEnabled(table));
    FirstMatchInOrder(listing, e, score);
  }

  /** Under the uniqueness constraint at most one row satisfies the rule. */
  lemma WinnerIsUnique(table: seq<Policy>, p: Policy, q: Policy, e: string, score: real)
    requires UniqueBands(table) && Wins(p, table, e, score) && Wins(q, table, e, score)
    ensures p == q
  {
    assert SameBand(p, q);
    var i :| 0 <= i < |table| && table[i] == p;
    var j :| 0 <= j < |table| && table[j] == q;
    assert SameBand(table[i], table[j]) && SameBand(table[j], table[i]);
  }

  /** The enabled rows, without ids, order, shadow and disabled rows. */
  ghost function EnabledContent(table: seq<Policy>): set<Policy> {
    set p | p in table && p.mode.Enabled? :: p.Content()
  }

  // A winner of one table has a counterpart that wins in the other.
  lemma WinnerTransfers(t1: seq<Policy>, t2: seq<Policy>, p: Policy, e: string, score: real) returns (q: Policy)
    requires EnabledContent(t1) == EnabledContent(t2) && Wins(p, t1, e, score)
    ensures Wins(q, t2, e, score) && q.Content() == p.Content()
  {
    assert p.Content() in EnabledContent(t2);
    q :| q in t2 && q.mode.Enabled? && q.Content() == p.Content();
    forall r | r in t2 && r.mode.Enabled? && r.Matches(e, score)
      ensures q.Width() < r.Width() || (q.Width() == r.Width() && q.scoreMin >= r.scoreMin)
    {
      assert r.Content() in EnabledContent(t1);
      var r' :| r' in t1 && r'.mode.Enabled? && r'.Content() == r.Content();
      assert r'.Matches(e, score) && r'.Width() == r.Width();
    }
  }

  /** Resolution depends on nothing but the enabled rows' own content. */
  lemma ResolutionIgnoresOrderAndInactiveRows(
    t1: seq<Policy>, t2: seq<Policy>, e: string, score: real, defaultAction: Action, defaultCode: Code)
    requires UniqueBands(t1) && UniqueBands(t2) && EnabledContent(t1) == EnabledContent(t2)
    ensures ResolveAction(e, score, defaultAction, defaultCode, ListActivePolicies(t1))
         == ResolveAction(e, score, defaultAction, defaultCode, ListActivePolicies(t2))
  {
    var f1, f2 := FirstMatch(ListActivePolicies(t1), e, score), FirstMatch(ListActivePolicies(t2), e, score);
    FirstMatchIsNarrowest(t1, e, score);
    FirstMatchIsNarrowest(t2, e, score);
    if f1.Some? {
      var q := WinnerTransfers(t1, t2, f1.value, e, score);
      WinnerIsUnique(t2, q, f2.value, e, score);
    } else if f2.Some? {
      var q := WinnerTransfers(t2, t1, f2.value, e, score);
      assert false;
    }
  }

  /**
    Resolution in the columns' own terms: the closed score band of an enabled row of that entity; the
    narrowest one decides, ties by highest score_min and then by lowest id; MASK gives WARN-1010, LOG_ONLY and PASS give
    OK-0000, BLOCK and WARN keep the default code; with no such row both defaults stand.
   */
  lemma ResolutionByBand(table: seq<Policy>, e: string, score: real, defaultAction: Action, defaultCode: Code)
    ensures var r := ResolveAction(e, score, defaultAction, defaultCode, ListActivePolicies(table));
            && (r.fromDb <==> exists p :: p in table && Applies(p, e, score))
            && (!r.fromDb ==> r.action == defaultAction && r.code == defaultCode)
            && (r.fromDb ==> exists p :: Decides(p, table, e, score) && p.action == r.action)
            && (r.fromDb && r.action.Mask? ==> r.code == WARN_1010)
            && (r.fromDb && (r.action.LogOnly? || r.action.Pass?) ==> r.code == OK_0000)
            && (r.fromDb && (r.action.Block? || r.action.Warn?) ==> r.code == defaultCode)
  {
    hide ListActivePolicies, FirstMatch;
    FirstMatchIsNarrowest(table, e, score);
    var found := FirstMatch(ListActivePolicies(table), e, score);
    if found.Some? {
      assert Decides(found.value, table, e, score);
    }
  }

  predicate Applies(p: Policy, e: string, score: real) {
    p.mode == Enabled && p.entity == e && p.scoreMin <= score && score <= p.scoreMax
  }

  predicate Decides(p: Policy, table: seq<Policy>, e: string, score: real) {
    && p in table && Applies(p, e, score)
    && forall q :: q in table && Applies(q, e, score) ==>
         || p.scoreMax - p.scoreMin < q.scoreMax - q.scoreMin
         || (p.scoreMax - p.scoreMin == q.scoreMax - q.scoreMin
             && (p.scoreMin > q.scoreMin || (p.scoreMin == q.scoreMin && p.id <= q.id)))
  }
}
