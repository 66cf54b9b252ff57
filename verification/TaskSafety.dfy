/** The task queue over every interleaving of its operations. Claims carry fresh lease ids;
    clock readings are arbitrary, each operation brings its own. */
module TaskSafety {
  import opened Wrappers
  import opened TaskLeases

  datatype Op =
    | Enqueue(id: string, from: Option<string>, to: string, task: string, now: int)
    | Claim(agent: string, lease: string, leaseMs: Option<int>, taskId: Option<string>, limit: Option<int>, now: int, picked: set<string>)
    | Complete(id: string, lease: string, status: Status, result: string, now: int)

  /** What happened so far: successful claims and successful completions. */
  datatype Event = Claimed(lease: string, picked: set<string>, now: int, until: int) | Finished(id: string, lease: string)

  datatype State = State(rows: Rows, log: seq<Event>)

  ghost predicate FreshLease(log: seq<Event>, lease: string) {
    forall i :: 0 <= i < |log| && log[i].Claimed? ==> log[i].lease != lease
  }

  ghost predicate Step(s: State, op: Op, s': State) {
    match op
    case Enqueue(id, from, to, task, now) =>
      var r := EnqueueRow(s.rows, id, from, to, task, now);
      s' == s.(rows := if r.Ok? then r.value else s.rows)
    case Claim(agent, lease, leaseMs, taskId, limit, now, picked) =>
      if agent == "" || lease == "" then
        s' == s
      else
        var until := now + LeaseMs(leaseMs);
        && FreshLease(s.log, lease)
        && OldestOf(s.rows, Candidates(s.rows, agent, taskId, now), ClaimLimit(taskId, limit), picked)
        && s' == State(ClaimRows(s.rows, picked, lease, until), s.log + [Claimed(lease, picked, now, until)])
    case Complete(id, lease, status, result, now) =>
      var r := CompleteRow(s.rows, id, lease, status, result, now);
      s' == if r.Ok? then State(r.value, s.log + [Finished(id, lease)]) else s
  }

  ghost predicate Run(states: seq<State>, ops: seq<Op>) {
    && |states| == |ops| + 1
    && states[0] == State(map[], [])
    && forall i :: 0 <= i < |ops| ==> Step(states[i], ops[i], states[i + 1])
  }

  // ---------- what the log says about a task ----------

  predicate ClaimsTask(e: Event, id: string) {
    e.Claimed? && id in e.picked
  }

  function ClaimCount(log: seq<Event>, id: string): nat {
    if |log| == 0 then 0
    else ClaimCount(log[..|log| - 1], id) + (if ClaimsTask(log[|log| - 1], id) then 1 else 0)
  }

  /** The index of the latest claim of the task, or -1. */
  function LastClaim(log: seq<Event>, id: string): (r: int)
    ensures -1 <= r < |log|
    ensures r >= 0 ==> ClaimsTask(log[r], id)
    ensures forall k :: r < k < |log| ==> !ClaimsTask(log[k], id)
  {
    if |log| == 0 then -1
    else if ClaimsTask(log[|log| - 1], id) then |log| - 1
    else LastClaim(log[..|log| - 1], id)
  }

  predicate FinishesTask(e: Event, id: string) {
    e.Finished? && e.id == id
  }

  ghost predicate HasFinished(log: seq<Event>, id: string) {
    exists k :: 0 <= k < |log| && FinishesTask(log[k], id)
  }

  predicate Terminal(row: Row) {
    row.status == Completed || row.status == Failed
  }

  /** How a row relates to the log. */
  ghost predicate RowOk(row: Row, log: seq<Event>, id: string) {
    && row.attempts == ClaimCount(log, id)
    && (row.status == Pending ==> row.leaseId == None && LastClaim(log, id) < 0)
    && (row.status == Processing ==>
          var c := LastClaim(log, id);
          c >= 0 && row.leaseId == Some(log[c].lease) && row.leaseUntil == Some(log[c].until))
    && (Terminal(row) ==> row.leaseId == None)
    && (Terminal(row) <==> HasFinished(log, id))
  }

  ghost predicate NoTrace(log: seq<Event>, id: string) {
    forall k :: 0 <= k < |log| ==> !ClaimsTask(log[k], id) && !FinishesTask(log[k], id)
  }

  /** A lease id names one claim, and every lease lasts. */
  ghost predicate LeasesUnique(log: seq<Event>) {
    && (forall i, j :: 0 <= i < j < |log| && log[i].Claimed? && log[j].Claimed? ==> log[i].lease != log[j].lease)
    && (forall i :: 0 <= i < |log| && log[i].Claimed? ==> log[i].now < log[i].until)
  }

  /** A task finishes once and is claimed no more. */
  ghost predicate FinishesOnce(log: seq<Event>) {
    forall i, j, id :: 0 <= i < j < |log| && FinishesTask(log[i], id) ==> !FinishesTask(log[j], id) && !ClaimsTask(log[j], id)
  }

  /** Only the latest claimer finishes a task. */
  ghost predicate FinishedByLatest(log: seq<Event>) {
    forall j :: 0 <= j < |log| && log[j].Finished? ==>
      var c := LastClaim(log[..j], log[j].id); c >= 0 && log[c].lease == log[j].lease
  }

  /** No claim before every earlier lease on the task has run out. */
  ghost predicate ClaimsSpaced(log: seq<Event>) {
    forall i, j, id :: 0 <= i < j < |log| && ClaimsTask(log[i], id) && ClaimsTask(log[j], id) ==> log[i].until < log[j].now
  }

  ghost predicate LogSafe(log: seq<Event>) {
    LeasesUnique(log) && FinishesOnce(log) && FinishedByLatest(log) && ClaimsSpaced(log)
  }

  ghost predicate Inv(s: State) {
    && LogSafe(s.log)
    && (forall id :: id in s.rows ==> RowOk(s.rows[id], s.log, id))
    && (forall id :: id !in s.rows ==> NoTrace(s.log, id))
  }

  // ---------- steps keep the invariant ----------

  lemma {:induction false} EnqueueKeepsInv(s: State, op: Op, s': State)
    requires Inv(s) && op.Enqueue? && Step(s, op, s')
    ensures Inv(s')
  {
    hide LogSafe;
    forall id | id in s'.rows && id !in s.rows ensures RowOk(s'.rows[id], s'.log, id) {
      NoTraceNoClaims(s.log, id);
    }
  }

  lemma {:induction false} NoTraceNoClaims(log: seq<Event>, id: string)
    requires NoTrace(log, id)
    ensures ClaimCount(log, id) == 0 && LastClaim(log, id) < 0
    ensures !HasFinished(log, id)
  {
    if |log| > 0 {
      assert forall k :: 0 <= k < |log| - 1 ==> log[..|log| - 1][k] == log[k];
      NoTraceNoClaims(log[..|log| - 1], id);
    }
  }

  /** Every earlier lease of a claimable task has run out. */
  lemma {:induction false} ClaimableLeasesOver(s: State, id: string, agent: string, now: int, i: nat)
    requires Inv(s) && id in s.rows && Claimable(s.rows[id], agent, now)
    requires i < |s.log| && ClaimsTask(s.log[i], id)
    ensures s.log[i].until < now
  {
    var c := LastClaim(s.log, id);
    assert RowOk(s.rows[id], s.log, id);
  }

  lemma {:induction false} HasFinishedSnoc(log: seq<Event>, e: Event, id: string)
    ensures HasFinished(log + [e], id) <==> HasFinished(log, id) || FinishesTask(e, id)
  {
    if HasFinished(log, id) {
      var k :| 0 <= k < |log| && FinishesTask(log[k], id);
      assert FinishesTask((log + [e])[k], id);
    }
    if FinishesTask(e, id) { assert FinishesTask((log + [e])[|log|], id); }
  }

  lemma {:induction false} FinishedByLatestSnoc(log: seq<Event>, e: Event)
    requires FinishedByLatest(log)
    requires e.Finished? ==> var c := LastClaim(log, e.id); c >= 0 && log[c].lease == e.lease
    ensures FinishedByLatest(log + [e])
  {
    var log' := log + [e];
    forall j | 0 <= j < |log'| && log'[j].Finished?
      ensures var c := LastClaim(log'[..j], log'[j].id); c >= 0 && log'[c].lease == log'[j].lease
    {
      assert log'[..j] == if j < |log| then log[..j] else log;
    }
  }

  /** One more event that is not a claim, or claims under a fresh lease. */
  lemma {:induction false} LeasesUniqueSnoc(log: seq<Event>, e: Event)
    requires LeasesUnique(log) && (e.Claimed? ==> e.now < e.until && FreshLease(log, e.lease))
    ensures LeasesUnique(log + [e])
  {
  }

  lemma {:induction false} FinishesOnceSnoc(log: seq<Event>, e: Event)
    requires FinishesOnce(log)
    requires forall i, id :: 0 <= i < |log| && FinishesTask(log[i], id) ==> !FinishesTask(e, id) && !ClaimsTask(e, id)
    ensures FinishesOnce(log + [e])
  {
  }

  lemma {:induction false} ClaimsSpacedSnoc(log: seq<Event>, e: Event)
    requires ClaimsSpaced(log)
    requires forall i, id :: 0 <= i < |log| && ClaimsTask(log[i], id) && ClaimsTask(e, id) ==> log[i].until < e.now
    ensures ClaimsSpaced(log + [e])
  {
  }

  lemma {:induction false} ClaimKeepsLog(s: State, e: Event, agent: string, now: int)
    requires Inv(s) && e.Claimed? && e.now == now < e.until && FreshLease(s.log, e.lease)
    requires forall id :: id in e.picked ==> id in s.rows && Claimable(s.rows[id], agent, now)
    ensures LogSafe(s.log + [e])
  {
    hide LeasesUnique, FinishesOnce, FinishedByLatest, ClaimsSpaced, RowOk, NoTrace;
    forall i, id | 0 <= i < |s.log| && ClaimsTask(s.log[i], id) && ClaimsTask(e, id) ensures s.log[i].until < now {
      ClaimableLeasesOver(s, id, agent, now, i);
    }
    forall i, id | 0 <= i < |s.log| && FinishesTask(s.log[i], id) ensures !ClaimsTask(e, id) {
      if id in e.picked { NotFinished(s, id, i); }
    }
    LeasesUniqueSnoc(s.log, e);
    FinishesOnceSnoc(s.log, e);
    FinishedByLatestSnoc(s.log, e);
    ClaimsSpacedSnoc(s.log, e);
  }

  lemma {:induction false} NotFinished(s: State, id: string, i: nat)
    requires Inv(s) && id in s.rows && !Terminal(s.rows[id]) && i < |s.log|
    ensures !FinishesTask(s.log[i], id)
  {
    assert RowOk(s.rows[id], s.log, id);
  }

  lemma {:induction false} RowAfterClaim(row: Row, log: seq<Event>, e: Event, id: string)
    requires RowOk(row, log, id) && e.Claimed? && (id in e.picked ==> !Terminal(row))
    ensures RowOk(if id in e.picked then Leased(row, e.lease, e.until) else row, log + [e], id)
  {
    HasFinishedSnoc(log, e, id);
  }

  lemma {:induction false} RowAfterFinish(row: Row, row': Row, log: seq<Event>, e: Event, id: string)
    requires RowOk(row, log, id) && e.Finished?
    requires if id == e.id then Terminal(row') && row'.leaseId == None && row'.attempts == row.attempts else row' == row
    ensures RowOk(row', log + [e], id)
  {
    HasFinishedSnoc(log, e, id);
  }

  lemma {:induction false} ClaimKeepsInv(s: State, op: Op, s': State)
    requires Inv(s) && op.Claim? && Step(s, op, s')
    ensures Inv(s')
  {
    hide LogSafe, RowOk;
    if s' != s {
      var e := s'.log[|s.log|];
      ClaimKeepsLog(s, e, op.agent, op.now);
      forall id | id in s'.rows ensures RowOk(s'.rows[id], s'.log, id) {
        RowAfterClaim(s.rows[id], s.log, e, id);
      }
    }
  }

  lemma {:induction false} FinishKeepsLog(s: State, id: string, lease: string)
    requires Inv(s) && id in s.rows && s.rows[id].status == Processing && s.rows[id].leaseId == Some(lease)
    ensures LogSafe(s.log + [Finished(id, lease)])
  {
    hide LeasesUnique, FinishesOnce, FinishedByLatest, ClaimsSpaced;
    var e := Finished(id, lease);
    assert RowOk(s.rows[id], s.log, id);
    forall i | 0 <= i < |s.log| ensures !FinishesTask(s.log[i], id) { NotFinished(s, id, i); }
    LeasesUniqueSnoc(s.log, e);
    FinishesOnceSnoc(s.log, e);
    FinishedByLatestSnoc(s.log, e);
    ClaimsSpacedSnoc(s.log, e);
  }

  lemma {:induction false} CompleteKeepsInv(s: State, op: Op, s': State)
    requires Inv(s) && op.Complete? && Step(s, op, s')
    ensures Inv(s')
  {
    hide LogSafe, RowOk;
    if s' != s {
      FinishKeepsLog(s, op.id, op.lease);
      forall id | id in s'.rows ensures RowOk(s'.rows[id], s'.log, id) {
        RowAfterFinish(s.rows[id], s'.rows[id], s.log, Finished(op.id, op.lease), id);
      }
    }
  }

  lemma {:induction false} StepKeepsInv(s: State, op: Op, s': State)
    requires Inv(s) && Step(s, op, s')
    ensures Inv(s')
  {
    hide Inv, Step;
    match op
    case Enqueue(_, _, _, _, _) => EnqueueKeepsInv(s, op, s');
    case Claim(_, _, _, _, _, _, _) => ClaimKeepsInv(s, op, s');
    case Complete(_, _, _, _, _) => CompleteKeepsInv(s, op, s');
  }

  lemma {:induction false} RunKeepsInv(states: seq<State>, ops: seq<Op>, n: nat)
    requires Run(states, ops) && n <= |ops|
    ensures Inv(states[n])
  {
    if n > 0 {
      RunKeepsInv(states, ops, n - 1);
      StepKeepsInv(states[n - 1], ops[n - 1], states[n]);
    }
  }

  // ---------- the theorems ----------

  /** Over every run: no task completes twice or is claimed after completing, and no claim of a
      task succeeds before the lease of every earlier one has run out. */
  lemma {:induction false} LeasesExclusive(states: seq<State>, ops: seq<Op>, n: nat, i: nat, j: nat, id: string)
    requires Run(states, ops) && n <= |ops| && i < j < |states[n].log|
    ensures var log := states[n].log;
            && (FinishesTask(log[i], id) ==> !FinishesTask(log[j], id) && !ClaimsTask(log[j], id))
            && (ClaimsTask(log[i], id) && ClaimsTask(log[j], id) ==> log[i].until < log[j].now)
  {
    RunKeepsInv(states, ops, n);
  }

  /** Over every run: a completion succeeds exactly for the holder of the latest claim of a task
      that has not completed; a lease id names one claim. */
  lemma {:induction false} OnlyLatestClaimerCompletes(states: seq<State>, ops: seq<Op>, n: nat, id: string, lease: string,
                                                      status: Status, result: string, now: int)
    requires Run(states, ops) && n <= |ops| && id != "" && lease != "" && (status == Completed || status == Failed)
    ensures var s := states[n];
            var c := LastClaim(s.log, id);
            CompleteRow(s.rows, id, lease, status, result, now).Ok? <==>
              c >= 0 && s.log[c].lease == lease && !HasFinished(s.log, id)
    ensures forall a, c :: 0 <= a < c < |states[n].log| && states[n].log[a].Claimed? && states[n].log[c].Claimed? ==>
              states[n].log[a].lease != states[n].log[c].lease
  {
    RunKeepsInv(states, ops, n);
    var s := states[n];
    if id in s.rows {
      assert RowOk(s.rows[id], s.log, id);
    } else {
      NoTraceNoClaims(s.log, id);
    }
  }

  /** Over every run: a row's attempt counter is the number of successful claims of it. */
  lemma {:induction false} AttemptsCountClaims(states: seq<State>, ops: seq<Op>, n: nat, id: string)
    requires Run(states, ops) && n <= |ops| && id in states[n].rows
    ensures states[n].rows[id].attempts == ClaimCount(states[n].log, id)
  {
    RunKeepsInv(states, ops, n);
    assert RowOk(states[n].rows[id], states[n].log, id);
  }

  /** Rows never disappear, and a terminal row never changes again. */
  lemma {:induction false} TerminalRowsFrozen(s: State, op: Op, s': State, id: string)
    requires Step(s, op, s') && id in s.rows
    ensures id in s'.rows
    ensures Terminal(s.rows[id]) ==> s'.rows[id] == s.rows[id]
  {
  }

  lemma {:induction false} TerminalRowsFrozenForever(states: seq<State>, ops: seq<Op>, i: nat, j: nat, id: string)
    requires Run(states, ops) && i <= j <= |ops| && id in states[i].rows && Terminal(states[i].rows[id])
    ensures id in states[j].rows && states[j].rows[id] == states[i].rows[id]
    decreases j
  {
    hide Step, Terminal;
    if i < j {
      TerminalRowsFrozenForever(states, ops, i, j - 1, id);
      assert Step(states[j - 1], ops[j - 1], states[j]);
      TerminalRowsFrozen(states[j - 1], ops[j - 1], states[j], id);
    }
  }

  /** The log only grows, rows stay and keep their addressee. */
  lemma {:induction false} HistoryKept(states: seq<State>, ops: seq<Op>, n: nat, m: nat, id: string)
    requires Run(states, ops) && n <= m <= |ops|
    ensures states[n].log <= states[m].log
    ensures id in states[n].rows ==> id in states[m].rows && states[m].rows[id].toAgent == states[n].rows[id].toAgent
    decreases m
  {
    hide Step;
    if n < m {
      HistoryKept(states, ops, n, m - 1, id);
      assert Step(states[m - 1], ops[m - 1], states[m]);
      StepKeepsHistory(states[m - 1], ops[m - 1], states[m], id);
    }
  }

  lemma {:induction false} StepKeepsHistory(s: State, op: Op, s': State, id: string)
    requires Step(s, op, s')
    ensures s.log <= s'.log
    ensures id in s.rows ==> id in s'.rows && s'.rows[id].toAgent == s.rows[id].toAgent
  {
  }

  ghost predicate ClaimsAt(states: seq<State>, ops: seq<Op>, n: nat) {
    n < |ops| && ops[n].Claim? && ops[n].agent != "" && ops[n].lease != ""
  }

  /** A row held under the lease of a claim was picked by it, and nobody claimed or finished it since. */
  lemma {:induction false} HeldIff(states: seq<State>, ops: seq<Op>, n: nat, m: nat, id: string)
    requires Run(states, ops) && ClaimsAt(states, ops, n) && n < m <= |ops|
    ensures id in HeldUnder(states[m].rows, ops[n].agent, ops[n].lease) <==>
            id in ops[n].picked && LastClaim(states[m].log, id) == |states[n].log| && !HasFinished(states[m].log, id)
  {
    hide RowOk, LogSafe, OldestOf, NoTrace;
    var s, log, op, c := states[m], states[m].log, ops[n], |states[n].log|;
    RunKeepsInv(states, ops, m);
    assert Step(states[n], op, states[n + 1]);
    HistoryKept(states, ops, n + 1, m, id);
    HistoryKept(states, ops, n, m, id);
    assert log[c] == states[n + 1].log[c];
    assert log[c].Claimed? && log[c].lease == op.lease && log[c].picked == op.picked;
    PickedAreAddressed(states[n], op, states[n + 1]);
    if id in s.rows {
      LeaseNamesClaim(s, id, c);
    } else {
    }
  }

  lemma {:induction false} PickedAreAddressed(s: State, op: Op, s': State)
    requires Step(s, op, s') && op.Claim? && op.agent != "" && op.lease != ""
    ensures forall id :: id in op.picked ==> id in s.rows && s.rows[id].toAgent == op.agent
  {
  }

  /** A row carries the lease of claim `c` exactly while `c` is its latest claim and it has not finished. */
  lemma {:induction false} LeaseNamesClaim(s: State, id: string, c: nat)
    requires Inv(s) && id in s.rows && c < |s.log| && s.log[c].Claimed?
    ensures s.rows[id].status == Processing && s.rows[id].leaseId == Some(s.log[c].lease) <==>
            LastClaim(s.log, id) == c && !HasFinished(s.log, id)
  {
    hide FinishesOnce, FinishedByLatest, ClaimsSpaced, HasFinished;
    assert RowOk(s.rows[id], s.log, id);
    assert LeasesUnique(s.log);
  }

  /** Nobody has finished the task, and whoever claimed it last has let the lease run out. */
  ghost predicate UpForClaim(log: seq<Event>, id: string, now: int) {
    && !HasFinished(log, id)
    && (LastClaim(log, id) < 0 || log[LastClaim(log, id)].until < now)
  }

  /** Over every run: a task can be claimed exactly by its addressee, while nobody has finished it and
      no earlier claim of it still lasts. An expired task is never stuck. */
  lemma {:induction false} ClaimableIff(states: seq<State>, ops: seq<Op>, n: nat, id: string, agent: string, now: int)
    requires Run(states, ops) && n <= |ops| && id in states[n].rows
    ensures Claimable(states[n].rows[id], agent, now) <==>
            states[n].rows[id].toAgent == agent && UpForClaim(states[n].log, id, now)
  {
    RunKeepsInv(states, ops, n);
    hide LogSafe, NoTrace, HasFinished;
    assert RowOk(states[n].rows[id], states[n].log, id);
  }

  /** The tasks of `agent` that are up for claim, or the one asked for among them. */
  ghost function Waiting(s: State, agent: string, taskId: Option<string>, now: int): (r: set<string>)
    ensures r <= s.rows.Keys
  {
    set id | id in s.rows && s.rows[id].toAgent == agent && (taskId.Some? ==> taskId.value == id) && UpForClaim(s.log, id, now)
  }

  lemma {:induction false} CandidatesIff(states: seq<State>, ops: seq<Op>, n: nat, agent: string, taskId: Option<string>, now: int)
    requires Run(states, ops) && n <= |ops|
    ensures Candidates(states[n].rows, agent, taskId, now) == Waiting(states[n], agent, taskId, now)
  {
    hide Claimable, UpForClaim;
    forall id | id in states[n].rows
      ensures Claimable(states[n].rows[id], agent, now) <==> states[n].rows[id].toAgent == agent && UpForClaim(states[n].log, id, now)
    {
      ClaimableIff(states, ops, n, id, agent, now);
    }
  }

  /** What a claim picks are the oldest of its tasks that are up for claim, up to the limit. What it
      reads back, at any later moment, are those of them that nobody has claimed or finished in between. */
  lemma {:induction false} ClaimReadsBackPicked(states: seq<State>, ops: seq<Op>, n: nat, m: nat)
    requires Run(states, ops) && ClaimsAt(states, ops, n) && n < m <= |ops|
    ensures OldestOf(states[n].rows, Waiting(states[n], ops[n].agent, ops[n].taskId, ops[n].now),
                     ClaimLimit(ops[n].taskId, ops[n].limit), ops[n].picked)
    ensures HeldUnder(states[m].rows, ops[n].agent, ops[n].lease) ==
            set id | id in ops[n].picked && LastClaim(states[m].log, id) == |states[n].log| && !HasFinished(states[m].log, id)
    ensures m == n + 1 ==> HeldUnder(states[m].rows, ops[n].agent, ops[n].lease) == ops[n].picked
  {
    hide OldestOf, HasFinished, RowOk, UpForClaim, Candidates;
    var op := ops[n];
    CandidatesIff(states, ops, n, op.agent, op.taskId, op.now);
    assert Step(states[n], op, states[n + 1]);
    forall id ensures id in HeldUnder(states[m].rows, op.agent, op.lease) <==>
                      id in op.picked && LastClaim(states[m].log, id) == |states[n].log| && !HasFinished(states[m].log, id)
    {
      HeldIff(states, ops, n, m, id);
    }
    if m == n + 1 {
      forall id | id in op.picked ensures id in HeldUnder(states[m].rows, op.agent, op.lease) {
        PickedAreAddressed(states[n], op, states[n + 1]);
      }
    }
  }
}
