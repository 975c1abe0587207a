// Replication plans joined with their shares: two queries, each of which may fail, and
// a look-up table filled row by row, so that a later row replaces an earlier one.
module PlanJoin {
  import opened Wrappers

  // A row of the share table; an empty field reads "".
  datatype ShareRow = ShareRow(planId: string, replicationId: string)

  predicate Usable(r: ShareRow) { r.planId != "" && r.replicationId != "" }

  ghost predicate Names(r: ShareRow, planId: string) {
    r.planId == planId && planId != "" && r.replicationId != ""
  }

  // The row the table holds for a plan: the last one that has both ids.
  ghost predicate LastFor(rows: seq<ShareRow>, planId: string, k: int) {
    && 0 <= k < |rows| && Names(rows[k], planId) && forall j | k < j < |rows| :: !Names(rows[j], planId)
  }

  ghost predicate IsLookup(lookup: map<string, string>, rows: seq<ShareRow>) {
    && (forall p :: p in lookup <==> exists k :: LastFor(rows, p, k))
    && (forall p, k | LastFor(rows, p, k) :: p in lookup && lookup[p] == rows[k].replicationId)
  }

  method ShareLookup(rows: seq<ShareRow>) returns (lookup: map<string, string>)
    ensures IsLookup(lookup, rows)
  {
    lookup := map[];
    for i := 0 to |rows|
      invariant IsLookup(lookup, rows[..i])
    {
      LookupNext(lookup, rows[..i], rows[i]);
      assert rows[..i + 1] == rows[..i] + [rows[i]];
      if Usable(rows[i]) {
        lookup := lookup[rows[i].planId := rows[i].replicationId];
      }
    }
    assert rows[..|rows|] == rows;
  }

  lemma LookupNext(lookup: map<string, string>, rows: seq<ShareRow>, row: ShareRow)
    requires IsLookup(lookup, rows)
    ensures IsLookup(if Usable(row) then lookup[row.planId := row.replicationId] else lookup, rows + [row])
  {
    var more, n := rows + [row], |rows|;
    forall p, k
      ensures LastFor(more, p, k) <==> if Usable(row) && row.planId == p then k == n else LastFor(rows, p, k)
    {
      assert more[n] == row;
      if 0 <= k < n {
        assert more[k] == rows[k];
        assert forall j | k < j < n :: more[j] == rows[j];
      }
    }
    if Usable(row) {
      assert LastFor(more, row.planId, n);
    }
  }

  // One plan as the database has it, and as it is reported.
  datatype PlanRow = PlanRow(planId: string, mainSite: string)
  datatype Plan = Plan(row: PlanRow, shareId: Option<string>)

  // One plan for each plan row, in order, each with the share of the last usable share
  // row for it, if there is one; no plans if they could not be read, and plans without
  // shares if those could not.
  method ListPlans(plans: Option<seq<PlanRow>>, shares: Option<seq<ShareRow>>) returns (out: seq<Plan>, warnings: nat)
    ensures |out| == if plans.Some? then |plans.value| else 0
    ensures forall i | 0 <= i < |out| ::
      && out[i].row == plans.value[i]
      && (out[i].shareId.Some? ==>
          shares.Some? && exists k :: LastFor(shares.value, out[i].row.planId, k) && shares.value[k].replicationId == out[i].shareId.value)
      && (out[i].shareId.None? ==> shares.None? || forall k :: !LastFor(shares.value, out[i].row.planId, k))
    ensures warnings == if plans.None? || shares.None? then 1 else 0
  {
    if plans.None? {
      return [], 1;
    }
    warnings := if shares.None? then 1 else 0;
    var rows := if shares.Some? then shares.value else [];
    var lookup := ShareLookup(rows);
    out := [];
    for i := 0 to |plans.value|
      invariant |out| == i
      invariant forall j | 0 <= j < i :: out[j] == PlanOf(plans.value[j], lookup)
    {
      out := out + [PlanOf(plans.value[i], lookup)];
    }
  }

  function PlanOf(p: PlanRow, lookup: map<string, string>): Plan {
    Plan(p, if p.planId in lookup then Some(lookup[p.planId]) else None)
  }
}
