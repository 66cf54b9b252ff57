/** The task queue in the shared database: each operation is one atomic statement on the rows,
    claims hand out leases, completions are fenced by the lease id. */
module TaskLeases {
  import opened Wrappers

  datatype Status = Pending | Processing | Completed | Failed

  datatype Row = Row(
    fromAgent: Option<string>, toAgent: string, task: string, status: Status, result: string,
    createdAt: int, completedAt: Option<int>, leaseId: Option<string>, leaseUntil: Option<int>, attempts: nat)

  type Rows = map<string, Row>

  const MAX_TASK_LENGTH := 4000
  const MAX_RESULT_LENGTH := 8000
  const LEASE_LOST := "agent_task_lease_lost"

  function Clamp(x: int, low: int, high: int): int
    requires low <= high
  {
    if x < low then low else if x > high then high else x
  }

  /** `Number(x) || fallback`, clamped: zero counts as absent. */
  function OrDefault(x: Option<int>, fallback: int, low: int, high: int): (r: int)
    requires low <= fallback <= high
    ensures low <= r <= high
    ensures x.None? || x == Some(0) ==> r == fallback
    ensures x.Some? && x.value != 0 ==> r == x.value || (x.value < low && r == low) || (x.value > high && r == high)
  {
    if x.None? || x.value == 0 then fallback else Clamp(x.value, low, high)
  }

  function LeaseMs(raw: Option<int>): (r: int)
    ensures 30_000 <= r <= 600_000
    ensures raw.None? ==> r == 300_000
    ensures raw.Some? && 30_000 <= raw.value <= 600_000 ==> r == raw.value
  {
    OrDefault(raw, 300_000, 30_000, 600_000)
  }

  function ClaimLimit(taskId: Option<string>, raw: Option<int>): (r: int)
    ensures 1 <= r <= 20
    ensures taskId.Some? ==> r == 1
    ensures taskId.None? && raw.None? ==> r == 20
    ensures taskId.None? && raw.Some? && 1 <= raw.value <= 20 ==> r == raw.value
  {
    if taskId.Some? then 1 else OrDefault(raw, 20, 1, 20)
  }

  // ---------- the statements ----------

  /** INSERT OR IGNORE of a pending row. */
  function EnqueueRow(rows: Rows, id: string, from: Option<string>, to: string, task: string, now: int): Result<Rows, string> {
    if id == "" then Err("id_required")
    else if to == "" then Err("toAgentId_required")
    else if task == "" then Err("task_required")
    else if |task| > MAX_TASK_LENGTH then Err("task_too_long")
    else if id in rows then Ok(rows)
    else Ok(rows[id := Row(from, to, task, Pending, "", now, None, None, None, 0)])
  }

  /** Pending, or processing under a lease that has run out. */
  predicate Claimable(row: Row, agent: string, now: int) {
    && row.toAgent == agent
    && (row.status == Pending
        || (row.status == Processing && (if row.leaseUntil.Some? then row.leaseUntil.value else 0) < now))
  }

  function Candidates(rows: Rows, agent: string, taskId: Option<string>, now: int): set<string> {
    set id | id in rows && Claimable(rows[id], agent, now) && (taskId.None? || id == taskId.value)
  }

  /** The oldest `limit` of the candidates, ties broken either way. */
  ghost predicate OldestOf(rows: Rows, candidates: set<string>, limit: int, picked: set<string>)
    requires candidates <= rows.Keys
  {
    && picked <= candidates
    && (|picked| == limit || picked == candidates) && |picked| <= limit
    && forall p, q :: p in picked && q in candidates - picked ==> rows[p].createdAt <= rows[q].createdAt
  }

  function Leased(row: Row, lease: string, until: int): Row {
    row.(status := Processing, leaseId := Some(lease), leaseUntil := Some(until), attempts := row.attempts + 1)
  }

  /** UPDATE of the picked rows. */
  function ClaimRows(rows: Rows, picked: set<string>, lease: string, until: int): (r: Rows)
    ensures r.Keys == rows.Keys
  {
    map id | id in rows :: if id in picked then Leased(rows[id], lease, until) else rows[id]
  }

  /** The rows a claimer reads back: those processing under its lease. */
  function HeldUnder(rows: Rows, agent: string, lease: string): set<string> {
    set id | id in rows && rows[id].toAgent == agent && rows[id].leaseId == Some(lease) && rows[id].status == Processing
  }

  function Truncate(s: string, n: nat): string {
    if |s| > n then s[..n] else s
  }

  /** UPDATE guarded by the lease; no row updated means the lease was lost. */
  function CompleteRow(rows: Rows, id: string, lease: string, status: Status, result: string, now: int): Result<Rows, string> {
    if id == "" then Err("id_required")
    else if lease == "" then Err("leaseId_required")
    else if status != Completed && status != Failed then Err("invalid_task_status")
    else if id !in rows || rows[id].status != Processing || rows[id].leaseId != Some(lease) then Err(LEASE_LOST)
    else
      Ok(rows[id := rows[id].(status := status, result := Truncate(result, MAX_RESULT_LENGTH),
                              completedAt := Some(now), leaseId := None, leaseUntil := None)])
  }

  // ---------- the store as it runs ----------

  /** Existing rows, oldest first. */
  ghost predicate ByAge(rows: Rows, ids: seq<string>) {
    && (forall k :: 0 <= k < |ids| ==> ids[k] in rows)
    && forall i, j :: 0 <= i < j < |ids| ==> rows[ids[i]].createdAt <= rows[ids[j]].createdAt
  }

  lemma {:induction false} OldestExists(rows: Rows, ids: set<string>) returns (oldest: string)
    requires ids != {} && ids <= rows.Keys
    ensures oldest in ids && forall q :: q in ids ==> rows[oldest].createdAt <= rows[q].createdAt
    decreases |ids|
  {
    var id :| id in ids;
    if ids == {id} {
      oldest := id;
    } else {
      oldest := OldestExists(rows, ids - {id});
      if rows[id].createdAt < rows[oldest].createdAt { oldest := id; }
    }
  }

  /** ORDER BY created_at ASC. */
  method OrderByAge(rows: Rows, ids: set<string>) returns (ordered: seq<string>)
    requires ids <= rows.Keys
    ensures |ordered| == |ids| && forall id :: id in ordered <==> id in ids
    ensures forall i, j :: 0 <= i < j < |ordered| ==> ordered[i] != ordered[j]
    ensures ByAge(rows, ordered)
  {
    ordered := [];
    var rest := ids;
    while rest != {}
      invariant rest <= ids && |ordered| + |rest| == |ids|
      invariant forall id :: id in ordered <==> id in ids - rest
      invariant forall k :: 0 <= k < |ordered| ==> ordered[k] in ids && ordered[k] !in rest
      invariant forall i, j :: 0 <= i < j < |ordered| ==> ordered[i] != ordered[j]
      invariant ByAge(rows, ordered)
      invariant forall k, q :: 0 <= k < |ordered| && q in rest ==> rows[ordered[k]].createdAt <= rows[q].createdAt
      decreases |rest|
    {
      ghost var oldest := OldestExists(rows, rest);
      var id :| id in rest && forall q :: q in rest ==> rows[id].createdAt <= rows[q].createdAt;
      ordered := ordered + [id];
      rest := rest - {id};
    }
  }

  lemma {:induction false} PrefixSize(ordered: seq<string>, n: nat)
    requires n <= |ordered| && forall i, j :: 0 <= i < j < |ordered| ==> ordered[i] != ordered[j]
    ensures |set k | 0 <= k < n :: ordered[k]| == n
  {
    var picked := set k | 0 <= k < n :: ordered[k];
    if n > 0 {
      PrefixSize(ordered, n - 1);
      assert picked == (set k | 0 <= k < n - 1 :: ordered[k]) + {ordered[n - 1]};
    }
  }

  class TaskStore {
    var rows: Rows

    constructor ()
      ensures rows == map[]
    {
      rows := map[];
    }

    /** A new task is pending and claimable by its agent at any time; a known id changes nothing. */
    method Enqueue(id: string, from: Option<string>, to: string, task: string, now: int) returns (r: Result<Row, string>)
      modifies this
      ensures EnqueueRow(old(rows), id, from, to, task, now) == if r.Ok? then Ok(rows) else Err(r.error)
      ensures r.Ok? <==> id != "" && to != "" && task != "" && |task| <= 4000
      ensures r.Err? ==> rows == old(rows)
      ensures r.Ok? ==> id in rows && r.value == rows[id]
      ensures id in old(rows) ==> rows == old(rows)
      ensures r.Ok? && id !in old(rows) ==>
        && rows - {id} == old(rows)
        && r.value.task == task && r.value.fromAgent == from && r.value.createdAt == now
        && r.value.attempts == 0 && r.value.leaseId == None && r.value.result == "" && r.value.completedAt == None
        && forall agent, t :: Claimable(r.value, agent, t) <==> agent == to
    {
      if id == "" { return Err("id_required"); }
      if to == "" { return Err("toAgentId_required"); }
      if task == "" { return Err("task_required"); }
      if |task| > MAX_TASK_LENGTH { return Err("task_too_long"); }
      if id !in rows {
        rows := rows[id := Row(from, to, task, Pending, "", now, None, None, None, 0)];
      }
      return Ok(rows[id]);
    }

    /** The UPDATE of a claim. It picks among the rows nobody has taken and those whose lease has run
        out, however often they were taken before. */
    method LeaseOldest(agent: string, lease: string, leaseMs: Option<int>, taskId: Option<string>, limit: Option<int>, now: int)
        returns (ghost picked: set<string>)
      modifies this
      ensures OldestOf(old(rows), Candidates(old(rows), agent, taskId, now), ClaimLimit(taskId, limit), picked)
      ensures forall id :: id in Candidates(old(rows), agent, taskId, now) <==>
        && id in old(rows) && old(rows)[id].toAgent == agent && (taskId.Some? ==> taskId.value == id)
        && old(rows)[id].status != Completed && old(rows)[id].status != Failed
        && (old(rows)[id].status == Processing ==> (if old(rows)[id].leaseUntil.Some? then old(rows)[id].leaseUntil.value else 0) < now)
      ensures picked <= Candidates(old(rows), agent, taskId, now) && |picked| <= ClaimLimit(taskId, limit)
      ensures |picked| < ClaimLimit(taskId, limit) ==> picked == Candidates(old(rows), agent, taskId, now)
      ensures forall p, q :: p in picked && q in Candidates(old(rows), agent, taskId, now) && q !in picked ==>
        old(rows)[p].createdAt <= old(rows)[q].createdAt
      ensures rows == ClaimRows(old(rows), picked, lease, now + LeaseMs(leaseMs))
    {
      var candidates := Candidates(rows, agent, taskId, now);
      var n := ClaimLimit(taskId, limit);
      var ordered := OrderByAge(rows, candidates);
      var first := if |ordered| < n then |ordered| else n;
      var chosen := set k | 0 <= k < first :: ordered[k];
      PrefixSize(ordered, first);
      picked := chosen;
      forall q | q in candidates - chosen ensures exists j :: first <= j < |ordered| && ordered[j] == q {
        var j :| 0 <= j < |ordered| && ordered[j] == q;
        assert j >= first;
      }
      assert first == |ordered| ==> chosen == candidates;
      rows := ClaimRows(rows, chosen, lease, now + LeaseMs(leaseMs));
    }

    /** The SELECT of a claim: what is processing under the lease when it runs, oldest first. */
    method ReadLeased(agent: string, lease: string) returns (held: seq<string>)
      ensures |held| == |HeldUnder(rows, agent, lease)| && forall id :: id in held <==> id in HeldUnder(rows, agent, lease)
      ensures forall id :: id in held <==>
        id in rows && rows[id].toAgent == agent && rows[id].leaseId == Some(lease) && rows[id].status == Processing
      ensures forall i, j :: 0 <= i < j < |held| ==> held[i] in rows && held[j] in rows && rows[held[i]].createdAt <= rows[held[j]].createdAt
      ensures ByAge(rows, held)
    {
      held := OrderByAge(rows, HeldUnder(rows, agent, lease));
    }

    /** A claim whose two statements nothing comes between. */
    method Claim(agent: string, lease: string, leaseMs: Option<int>, taskId: Option<string>, limit: Option<int>, now: int)
        returns (r: Result<seq<string>, string>, ghost picked: set<string>)
      modifies this
      ensures r.Err? <==> agent == "" || lease == ""
      ensures r.Err? ==> rows == old(rows)
      ensures r.Ok? ==>
        && OldestOf(old(rows), Candidates(old(rows), agent, taskId, now), ClaimLimit(taskId, limit), picked)
        && rows == ClaimRows(old(rows), picked, lease, now + LeaseMs(leaseMs))
        && (forall id :: id in r.value <==> id in HeldUnder(rows, agent, lease))
        && ByAge(rows, r.value)
    {
      picked := {};
      if agent == "" {
        return Err("agentId_required"), picked;
      }
      if lease == "" {
        return Err("leaseId_required"), picked;
      }
      picked := LeaseOldest(agent, lease, leaseMs, taskId, limit, now);
      var held := ReadLeased(agent, lease);
      return Ok(held), picked;
    }

    /** Only the holder of the lease completes a task; after that no lease completes it again and
        nobody claims it. */
    method Complete(id: string, lease: string, status: Status, result: string, now: int) returns (r: Result<Status, string>)
      modifies this
      ensures CompleteRow(old(rows), id, lease, status, result, now) == if r.Ok? then Ok(rows) else Err(r.error)
      ensures r.Ok? <==>
        && id != "" && lease != "" && (status == Completed || status == Failed)
        && id in old(rows) && old(rows)[id].status == Processing && old(rows)[id].leaseId == Some(lease)
      ensures r.Err? ==> rows == old(rows)
      ensures r.Err? && id != "" && lease != "" && (status == Completed || status == Failed) ==> r.error == LEASE_LOST
      ensures r.Ok? ==>
        && r.value == status && rows.Keys == old(rows).Keys
        && (forall k :: k in rows && k != id ==> rows[k] == old(rows)[k])
        && rows[id].status == status && rows[id].completedAt == Some(now) && rows[id].attempts == old(rows)[id].attempts
        && rows[id].result <= result && (|rows[id].result| == 8000 || rows[id].result == result)
        && (forall l, st, res, t :: CompleteRow(rows, id, l, st, res, t).Err?)
        && (forall agent, t :: !Claimable(rows[id], agent, t))
    {
      if id == "" { return Err("id_required"); }
      if lease == "" { return Err("leaseId_required"); }
      if status != Completed && status != Failed { return Err("invalid_task_status"); }
      if id !in rows || rows[id].status != Processing || rows[id].leaseId != Some(lease) {
        return Err(LEASE_LOST);
      }
      rows := rows[id := rows[id].(status := status, result := Truncate(result, MAX_RESULT_LENGTH),
                                   completedAt := Some(now), leaseId := None, leaseUntil := None)];
      return Ok(status);
    }
  }
}
