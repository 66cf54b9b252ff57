/** The indexer over every interleaving of complete, interrupted and overlapping runs, while the
    chain grows. */
module IndexerSafety {
  import opened Wrappers
  import opened Indexer

  /** How far a run has come. Everything it knows was read before; the chain and the database move on. */
  datatype Job =
    | HeadRead(head: int)
    | WindowRead(head: int, from: nat, to: int, stateMissing: bool)
    | Inserting(to: int, pending: seq<LogEvent>)

  datatype State = State(chain: Chain, table: Table, cursor: Option<int>, jobs: map<string, Job>)

  datatype Op =
    | Mine(block: seq<LogEvent>)
    | ReadHead(job: string)
    | ReadCursor(job: string)
    | Fetch(job: string)
    | InsertOne(job: string)
    | WriteCursor(job: string)
    | NothingToDo(job: string)
    | Crash(job: string)

  ghost predicate Enabled(s: State, op: Op) {
    match op
    case Mine(block) => UniqueIds(s.chain + [block])
    case ReadHead(job) => job !in s.jobs && |s.chain| > 0
    case ReadCursor(job) => job in s.jobs && s.jobs[job].HeadRead?
    case Fetch(job) => job in s.jobs && s.jobs[job].WindowRead? && s.jobs[job].from <= s.jobs[job].to < |s.chain|
    case InsertOne(job) => job in s.jobs && s.jobs[job].Inserting? && |s.jobs[job].pending| > 0
    case WriteCursor(job) => job in s.jobs && s.jobs[job].Inserting? && |s.jobs[job].pending| == 0
    case NothingToDo(job) => job in s.jobs && s.jobs[job].WindowRead? && s.jobs[job].from > s.jobs[job].to
    case Crash(job) => job in s.jobs
  }

  function Without(jobs: map<string, Job>, job: string): map<string, Job> {
    map j | j in jobs && j != job :: jobs[j]
  }

  ghost function Apply(s: State, op: Op, start: nat): State
    requires Enabled(s, op)
  {
    match op
    case Mine(block) => s.(chain := s.chain + [block])
    case ReadHead(job) => s.(jobs := s.jobs[job := HeadRead(|s.chain| - 1)])
    case ReadCursor(job) =>
      var from := CursorOr(s.cursor, start) + 1;
      if from < 0 then s
      else
        var head := s.jobs[job].head;
        s.(jobs := s.jobs[job := WindowRead(head, from, WindowEnd(from, head), s.cursor.None?)])
    case Fetch(job) =>
      var w := s.jobs[job];
      s.(jobs := s.jobs[job := Inserting(w.to, EventsIn(s.chain, w.from, w.to))])
    case InsertOne(job) =>
      var w := s.jobs[job];
      s.(table := Inserted(s.table, w.pending[0]), jobs := s.jobs[job := Inserting(w.to, w.pending[1..])])
    case WriteCursor(job) =>
      s.(cursor := Some(s.jobs[job].to), jobs := Without(s.jobs, job))
    case NothingToDo(job) =>
      s.(cursor := if s.jobs[job].stateMissing then Some(s.jobs[job].head) else s.cursor, jobs := Without(s.jobs, job))
    case Crash(job) => s.(jobs := Without(s.jobs, job))
  }

  ghost predicate Run(states: seq<State>, ops: seq<Op>, start: nat) {
    && |states| == |ops| + 1
    && states[0] == State([], map[], None, map[])
    && forall i :: 0 <= i < |ops| ==> Enabled(states[i], ops[i]) && states[i + 1] == Apply(states[i], ops[i], start)
  }

  // ---------- the invariant ----------

  /** Every event of the blocks `start` to `upTo` has its row. */
  ghost predicate Covered(chain: Chain, table: Table, start: nat, upTo: int) {
    forall b, i :: start <= b <= upTo && b < |chain| && 0 <= i < |chain[b]| ==> Stored(table, chain[b][i])
  }

  /** Every event of the blocks `start` to `upTo` has its row or is about to get it. */
  ghost predicate CoveredBut(chain: Chain, table: Table, start: nat, upTo: int, pending: seq<LogEvent>) {
    forall b, i :: start <= b <= upTo && b < |chain| && 0 <= i < |chain[b]| ==>
      Stored(table, chain[b][i]) || chain[b][i] in pending
  }

  ghost predicate JobOk(s: State, start: nat, j: Job) {
    match j
    case HeadRead(head) => 0 <= head < |s.chain|
    case WindowRead(head, from, to, _) =>
      && 0 <= head < |s.chain| && to == WindowEnd(from, head)
      && (from <= |s.chain| || from <= start) && Covered(s.chain, s.table, start, from - 1)
    case Inserting(to, pending) =>
      && 0 <= to < |s.chain|
      && (forall e :: e in pending ==> OnChain(s.chain, e))
      && CoveredBut(s.chain, s.table, start, to, pending)
  }

  ghost predicate Inv(s: State, start: nat) {
    && UniqueIds(s.chain)
    && TableSound(s.chain, s.table)
    && (s.cursor.Some? ==> -1 <= s.cursor.value < |s.chain| && Covered(s.chain, s.table, start, s.cursor.value))
    && (forall job :: job in s.jobs ==> JobOk(s, start, s.jobs[job]))
  }

  lemma {:induction false} OnChainGrows(chain: Chain, block: seq<LogEvent>, e: LogEvent)
    requires OnChain(chain, e)
    ensures OnChain(chain + [block], e)
  {
    var b, i :| 0 <= b < |chain| && 0 <= i < |chain[b]| && chain[b][i] == e;
    assert (chain + [block])[b][i] == e;
  }

  /** New blocks lie beyond everything already covered. */
  lemma {:induction false} MineKeepsInv(s: State, block: seq<LogEvent>, start: nat)
    requires Inv(s, start) && UniqueIds(s.chain + [block])
    ensures Inv(s.(chain := s.chain + [block]), start)
  {
    hide OnChain, UniqueIds;
    var s' := s.(chain := s.chain + [block]);
    forall e | OnChain(s.chain, e) ensures OnChain(s'.chain, e) { OnChainGrows(s.chain, block, e); }
    forall job | job in s'.jobs ensures JobOk(s', start, s'.jobs[job]) { assert JobOk(s, start, s.jobs[job]); }
  }

  lemma {:induction false} InsertKeepsInv(s: State, job: string, start: nat)
    requires Inv(s, start) && Enabled(s, InsertOne(job))
    ensures Inv(Apply(s, InsertOne(job), start), start)
  {
    hide OnChain, UniqueIds, TableSound, Stored;
    var s' := Apply(s, InsertOne(job), start);
    var w := s.jobs[job];
    assert JobOk(s, start, w);
    assert w.pending[0] in w.pending;
    InsertStores(s.chain, s.table, w.pending[0]);
    assert w.pending == [w.pending[0]] + w.pending[1..];
    forall j | j in s'.jobs ensures JobOk(s', start, s'.jobs[j]) {
      if j != job { assert JobOk(s, start, s.jobs[j]); }
    }
  }

  /** Up to the window's start everything is covered, the window itself is fetched whole. */
  lemma {:induction false} FetchKeepsInv(s: State, job: string, start: nat)
    requires Inv(s, start) && Enabled(s, Fetch(job))
    ensures Inv(Apply(s, Fetch(job), start), start)
  {
    hide UniqueIds, TableSound, Stored, OnChain, EventsIn;
    var s' := Apply(s, Fetch(job), start);
    var w := s.jobs[job];
    var pending := EventsIn(s.chain, w.from, w.to);
    assert JobOk(s, start, w);
    FetchIsTheWindow(s.chain, w.from, w.to);
    forall j | j in s'.jobs ensures JobOk(s', start, s'.jobs[j]) {
      if j != job { assert JobOk(s, start, s.jobs[j]); }
    }
  }

  lemma {:induction false} OtherStepsKeepInv(s: State, op: Op, start: nat)
    requires Inv(s, start) && Enabled(s, op) && !op.Mine? && !op.Fetch? && !op.InsertOne?
    ensures Inv(Apply(s, op, start), start)
  {
    hide UniqueIds, TableSound, Stored, OnChain;
    var s' := Apply(s, op, start);
    if op.job in s.jobs { assert JobOk(s, start, s.jobs[op.job]); }
    forall j | j in s'.jobs ensures JobOk(s', start, s'.jobs[j]) {
      if j != op.job { assert JobOk(s, start, s.jobs[j]); }
    }
  }

  lemma {:induction false} RunKeepsInv(states: seq<State>, ops: seq<Op>, start: nat, n: nat)
    requires Run(states, ops, start) && n <= |ops|
    ensures Inv(states[n], start)
  {
    hide Inv, Enabled;
    if n == 0 {
      EmptyKeepsInv(start);
    } else {
      RunKeepsInv(states, ops, start, n - 1);
      var s, op := states[n - 1], ops[n - 1];
      assert Enabled(s, op) && states[n] == Apply(s, op, start);
      StepKeepsInv(s, op, start);
    }
  }

  lemma {:induction false} EmptyKeepsInv(start: nat)
    ensures Inv(State([], map[], None, map[]), start)
  {
  }

  lemma {:induction false} StepKeepsInv(s: State, op: Op, start: nat)
    requires Inv(s, start) && Enabled(s, op)
    ensures Inv(Apply(s, op, start), start)
  {
    hide Inv;
    if op.Mine? {
      MineKeepsInv(s, op.block, start);
    } else if op.Fetch? {
      FetchKeepsInv(s, op.job, start);
    } else if op.InsertOne? {
      InsertKeepsInv(s, op.job, start);
    } else {
      OtherStepsKeepInv(s, op, start);
    }
  }

  // ---------- the theorems ----------

  /** Whatever was interrupted or overlapped: every event from the start block to the cursor has
      exactly one row, its own, and no row is anything but an on-chain event. */
  lemma {:induction false} CursorCovers(states: seq<State>, ops: seq<Op>, start: nat, n: nat)
    requires Run(states, ops, start) && n <= |ops|
    ensures var s := states[n];
            && (s.cursor.Some? ==> s.cursor.value < |s.chain|)
            && (forall b, i :: s.cursor.Some? && start <= b <= s.cursor.value && 0 <= i < |s.chain[b]| ==>
                  var e := s.chain[b][i]; Key(e.txHash, e.logIndex) in s.table && s.table[Key(e.txHash, e.logIndex)] == e)
            && (forall k :: k in s.table ==>
                  && k == Key(s.table[k].txHash, s.table[k].logIndex)
                  && exists b :: 0 <= b < |s.chain| && s.table[k] in s.chain[b])
  {
    RunKeepsInv(states, ops, start, n);
    var s := states[n];
    forall k | k in s.table ensures exists b :: 0 <= b < |s.chain| && s.table[k] in s.chain[b] {
      assert OnChain(s.chain, s.table[k]);
      var b, i :| 0 <= b < |s.chain| && 0 <= i < |s.chain[b]| && s.chain[b][i] == s.table[k];
      assert s.table[k] in s.chain[b];
    }
    forall b, i | s.cursor.Some? && start <= b <= s.cursor.value && 0 <= i < |s.chain[b]|
      ensures var e := s.chain[b][i]; Key(e.txHash, e.logIndex) in s.table && s.table[Key(e.txHash, e.logIndex)] == e
    {
      assert Stored(s.table, s.chain[b][i]);
    }
  }

  /** Rows are never removed or rewritten. */
  lemma {:induction false} RowsKept(s: State, op: Op, start: nat, k: Key)
    requires Enabled(s, op) && k in s.table
    ensures k in Apply(s, op, start).table && Apply(s, op, start).table[k] == s.table[k]
  {
  }

  /** A run that overlaps nothing: the cursor ends `min(2000, head - cursor)` further. */
  lemma {:induction false} LoneRunAdvances(chain: Chain, table: Table, cursor: Option<int>, start: nat)
    requires |chain| > 0 && CursorOr(cursor, start) >= -1 && UniqueIds(chain) && TableSound(chain, table)
    requires Covered(chain, table, start, CursorOr(cursor, start))
    ensures var before, head := CursorOr(cursor, start), |chain| - 1;
            var (table', cursor') := IndexRun(chain, table, cursor, start);
            && (before < head ==> cursor' == Some(before + if head - before < 2000 then head - before else 2000))
            && TableSound(chain, table') && Covered(chain, table', start, CursorOr(cursor', start))
  {
    hide UniqueIds, TableSound, Stored, OnChain, EventsIn, InsertAll;
    var before, head := CursorOr(cursor, start), |chain| - 1;
    var to := WindowEnd(before + 1, head);
    if before + 1 <= to {
      var events := EventsIn(chain, before + 1, to);
      FetchIsTheWindow(chain, before + 1, to);
      InsertAllStores(chain, table, events);
      forall b, i | start <= b <= to && 0 <= i < |chain[b]| ensures Stored(InsertAll(table, events), chain[b][i]) {
        if b <= before { assert Stored(table, chain[b][i]); }
      }
    }
  }

  // ---------- a complete run, step by step ----------

  ghost predicate Reaches(s: State, ops: seq<Op>, start: nat, t: State)
    decreases |ops|
  {
    if |ops| == 0 then s == t else Enabled(s, ops[0]) && Reaches(Apply(s, ops[0], start), ops[1..], start, t)
  }

  function Inserts(job: string, n: nat): seq<Op> {
    if n == 0 then [WriteCursor(job)] else [InsertOne(job)] + Inserts(job, n - 1)
  }

  /** Everything `job` does when nothing interrupts it. */
  function LoneOps(chain: Chain, cursor: Option<int>, start: nat, job: string): seq<Op>
    requires |chain| > 0 && CursorOr(cursor, start) >= -1
  {
    var from, head := CursorOr(cursor, start) + 1, |chain| - 1;
    var upTo := WindowEnd(from, head);
    [ReadHead(job), ReadCursor(job)] +
    AfterReads(chain, from, upTo, job)
  }

  lemma {:induction false} InsertsReach(s: State, job: string, start: nat)
    requires job in s.jobs && s.jobs[job].Inserting?
    ensures Reaches(s, Inserts(job, |s.jobs[job].pending|), start,
                    State(s.chain, InsertAll(s.table, s.jobs[job].pending), Some(s.jobs[job].to), Without(s.jobs, job)))
    decreases |s.jobs[job].pending|
  {
    var w := s.jobs[job];
    var ops := Inserts(job, |w.pending|);
    if |w.pending| == 0 {
      assert ops[1..] == [];
      assert Reaches(Apply(s, ops[0], start), [], start, Apply(s, ops[0], start));
    } else {
      var s' := Apply(s, InsertOne(job), start);
      assert ops[0] == InsertOne(job) && ops[1..] == Inserts(job, |w.pending| - 1);
      InsertsReach(s', job, start);
      assert Without(s'.jobs, job) == Without(s.jobs, job);
    }
  }

  /** What follows the two reads. */
  function AfterReads(chain: Chain, from: int, upTo: int, job: string): seq<Op>
    requires 0 <= from && upTo < |chain|
  {
    if from <= upTo then [Fetch(job)] + Inserts(job, |EventsIn(chain, from, upTo)|) else [NothingToDo(job)] + []
  }

  lemma {:induction false} WindowReach(s: State, job: string, start: nat)
    requires job in s.jobs && s.jobs[job].WindowRead? && s.jobs[job].from <= s.jobs[job].to < |s.chain|
    ensures var w := s.jobs[job];
            Reaches(s, AfterReads(s.chain, w.from, w.to, job), start,
                    State(s.chain, InsertAll(s.table, EventsIn(s.chain, w.from, w.to)), Some(w.to), Without(s.jobs, job)))
  {
    hide Reaches, EventsIn, InsertAll, Inserts;
    var w, s' := s.jobs[job], Apply(s, Fetch(job), start);
    var inserts := Inserts(job, |EventsIn(s.chain, w.from, w.to)|);
    var t := State(s.chain, InsertAll(s.table, EventsIn(s.chain, w.from, w.to)), Some(w.to), Without(s.jobs, job));
    InsertsReach(s', job, start);
    assert Without(s'.jobs, job) == Without(s.jobs, job);
    ReachesCons(s, Fetch(job), inserts, start, t);
  }

  lemma {:induction false} IdleReach(s: State, job: string, start: nat)
    requires job in s.jobs && s.jobs[job].WindowRead? && s.jobs[job].to < s.jobs[job].from && s.jobs[job].to < |s.chain|
    ensures var w := s.jobs[job];
            Reaches(s, AfterReads(s.chain, w.from, w.to, job), start,
                    State(s.chain, s.table, if w.stateMissing then Some(w.head) else s.cursor, Without(s.jobs, job)))
  {
    hide Reaches;
    ReachesCons(s, NothingToDo(job), [], start, Apply(s, NothingToDo(job), start));
  }

  /** The steps of a run that overlaps nothing add up to `IndexRun`, which is what the method
      `RunIndexer` does to the database. */
  lemma {:induction false} LoneRunIsIndexRun(s: State, job: string, start: nat)
    requires |s.chain| > 0 && CursorOr(s.cursor, start) >= -1 && job !in s.jobs
    ensures var (table', cursor') := IndexRun(s.chain, s.table, s.cursor, start);
            Reaches(s, LoneOps(s.chain, s.cursor, start, job), start, State(s.chain, table', cursor', s.jobs))
  {
    hide Reaches, EventsIn, InsertAll, Inserts;
    var from, head := CursorOr(s.cursor, start) + 1, |s.chain| - 1;
    var upTo := WindowEnd(from, head);
    var s1 := Apply(s, ReadHead(job), start);
    var s2 := Apply(s1, ReadCursor(job), start);
    var rest := AfterReads(s.chain, from, upTo, job);
    var (table', cursor') := IndexRun(s.chain, s.table, s.cursor, start);
    var t := State(s.chain, table', cursor', s.jobs);
    assert Without(s2.jobs, job) == s.jobs;
    if from <= upTo { WindowReach(s2, job, start); } else { IdleReach(s2, job, start); }
    ReachesCons(s1, ReadCursor(job), rest, start, t);
    ReachesCons(s, ReadHead(job), [ReadCursor(job)] + rest, start, t);
    assert LoneOps(s.chain, s.cursor, start, job) == [ReadHead(job)] + ([ReadCursor(job)] + rest);
  }

  lemma {:induction false} ReachesCons(s: State, op: Op, rest: seq<Op>, start: nat, t: State)
    requires Enabled(s, op) && Reaches(Apply(s, op, start), rest, start, t)
    ensures Reaches(s, [op] + rest, start, t)
  {
    assert ([op] + rest)[1..] == rest;
  }
}
