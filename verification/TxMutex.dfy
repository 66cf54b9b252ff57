/** The runner's two locks over every interleaving of agent runs: its own execution lock, and the
    transaction mutex around every broadcast. Nothing in the database says who holds a lock, so
    exclusion rests on every holder being done before its time is up. */
module TxMutex {
  import opened LockTable

  /** Where a run is, and until when its locks were taken. */
  datatype Pc =
    | Running(lock: string, until: int)
    | Submitting(lock: string, until: int, mutexUntil: int, sent: bool)
    | Leaving(lock: string, until: int)
    | Ended
    | Crashed

  datatype Event = Acquired(run: string) | Broadcast(run: string) | Released(run: string)

  datatype State = State(locks: Locks, clock: int, runs: map<string, Pc>, log: seq<Event>)

  /** A lock call reads the clock before its statement runs, so `now` may lag behind. */
  datatype Op =
    | Start(run: string, lock: string, ttlMs: int, now: int)
    | AcquireMutex(run: string, now: int)
    | Send(run: string)
    | ReleaseMutex(run: string)
    | Finish(run: string)
    | Crash(run: string)
    | Tick(to: int)

  predicate Alive(pc: Pc) {
    pc.Running? || pc.Submitting? || pc.Leaving?
  }

  ghost predicate Enabled(s: State, op: Op) {
    match op
    case Start(run, lock, _, now) => run !in s.runs && lock != MUTEX && now <= s.clock
    case AcquireMutex(run, now) => run in s.runs && s.runs[run].Running? && now <= s.clock
    case Send(run) => run in s.runs && s.runs[run].Submitting? && !s.runs[run].sent
    case ReleaseMutex(run) => run in s.runs && s.runs[run].Submitting?
    case Finish(run) => run in s.runs && (s.runs[run].Running? || s.runs[run].Leaving?)
    case Crash(run) => run in s.runs && Alive(s.runs[run])
    case Tick(to) => s.clock <= to
  }

  function Apply(s: State, op: Op): State
    requires Enabled(s, op)
  {
    match op
    case Start(run, lock, ttlMs, now) =>
      // a run that finds its lock taken returns at once
      var until := now + Ttl(ttlMs);
      s.(locks := Locked(s.locks, lock, until, now),
         runs := s.runs[run := if Free(s.locks, lock, now) then Running(lock, until) else Ended])
    case AcquireMutex(run, now) =>
      // a busy mutex is an error: the run goes to its cleanup without the mutex
      var pc, until := s.runs[run], now + Ttl(MUTEX_TTL);
      if Free(s.locks, MUTEX, now) then
        State(Locked(s.locks, MUTEX, until, now), s.clock,
              s.runs[run := Submitting(pc.lock, pc.until, until, false)], s.log + [Acquired(run)])
      else
        s.(runs := s.runs[run := Leaving(pc.lock, pc.until)])
    case Send(run) =>
      s.(runs := s.runs[run := s.runs[run].(sent := true)], log := s.log + [Broadcast(run)])
    case ReleaseMutex(run) =>
      var pc := s.runs[run];
      State(Unlocked(s.locks, MUTEX), s.clock, s.runs[run := Leaving(pc.lock, pc.until)], s.log + [Released(run)])
    case Finish(run) =>
      s.(locks := Unlocked(s.locks, s.runs[run].lock), runs := s.runs[run := Ended])
    case Crash(run) =>
      s.(runs := s.runs[run := Crashed])
    case Tick(to) =>
      s.(clock := to)
  }

  ghost predicate Run(states: seq<State>, ops: seq<Op>) {
    && |states| == |ops| + 1
    && states[0] == State(map[], states[0].clock, map[], [])
    && forall i :: 0 <= i < |ops| ==> Enabled(states[i], ops[i]) && states[i + 1] == Apply(states[i], ops[i])
  }

  ghost predicate InSection(s: State, r: string) {
    r in s.runs && s.runs[r].Submitting?
  }

  ghost predicate Holds(s: State, r: string, lock: string) {
    r in s.runs && Alive(s.runs[r]) && s.runs[r].lock == lock
  }

  ghost predicate OneInSection(s: State) {
    forall r, q :: InSection(s, r) && InSection(s, q) ==> r == q
  }

  ghost predicate OneHolder(s: State) {
    forall r, q, lock :: Holds(s, r, lock) && Holds(s, q, lock) ==> r == q
  }

  /** The mutex is not taken while a run inside has outstayed its time. */
  ghost predicate MutexOnTime(s: State, op: Op) {
    op.AcquireMutex? ==> forall r :: InSection(s, r) ==> op.now <= s.runs[r].mutexUntil
  }

  /** An execution lock is not taken while a run that has it has outstayed its time. */
  ghost predicate LockOnTime(s: State, op: Op) {
    op.Start? ==> forall r :: Holds(s, r, op.lock) ==> op.now <= s.runs[r].until
  }

  // ---------- what the log says about the mutex ----------

  /** The run that took the mutex last, unless it has been released since. */
  function Holder(log: seq<Event>): seq<string> {
    if |log| == 0 then []
    else
      var e := log[|log| - 1];
      match e
      case Acquired(run) => [run]
      case Released(_) => []
      case Broadcast(_) => Holder(log[..|log| - 1])
  }

  /** Broadcasts and releases come from the run that holds the mutex, and from nobody else. */
  ghost predicate LogSafe(log: seq<Event>) {
    forall k :: 0 <= k < |log| && !log[k].Acquired? ==> Holder(log[..k]) == [log[k].run]
  }

  // ---------- the invariant ----------

  ghost predicate LockNames(s: State) {
    forall r :: r in s.runs && Alive(s.runs[r]) ==> s.runs[r].lock != MUTEX
  }

  ghost predicate MutexHeld(s: State) {
    && LockNames(s)
    && (forall r :: InSection(s, r) ==> MUTEX in s.locks && s.locks[MUTEX] == s.runs[r].mutexUntil && Holder(s.log) == [r])
    && LogSafe(s.log)
  }

  ghost predicate LocksHeld(s: State) {
    && LockNames(s)
    && (forall r, lock :: Holds(s, r, lock) ==> lock in s.locks && s.locks[lock] == s.runs[r].until)
    && OneHolder(s)
  }

  lemma {:induction false} HolderSnoc(log: seq<Event>, e: Event)
    ensures Holder(log + [e]) == match e case Acquired(run) => [run] case Released(_) => [] case Broadcast(_) => Holder(log)
    ensures LogSafe(log) && (!e.Acquired? ==> Holder(log) == [e.run]) ==> LogSafe(log + [e])
  {
    assert (log + [e])[..|log|] == log;
    assert forall k :: 0 <= k < |log| ==> (log + [e])[..k] == log[..k];
  }

  lemma {:induction false} OneInside(s: State)
    requires MutexHeld(s)
    ensures OneInSection(s)
  {
    forall r, q | InSection(s, r) && InSection(s, q) ensures r == q {
      assert Holder(s.log) == [r] && Holder(s.log) == [q];
      assert [r][0] == [q][0];
    }
  }

  lemma {:induction false} SendKeepsMutex(s: State, op: Op)
    requires MutexHeld(s) && Enabled(s, op) && op.Send?
    ensures MutexHeld(Apply(s, op))
  {
    hide LogSafe;
    assert InSection(s, op.run);
    HolderSnoc(s.log, Broadcast(op.run));
  }

  lemma {:induction false} ReleaseKeepsMutex(s: State, op: Op)
    requires MutexHeld(s) && Enabled(s, op) && op.ReleaseMutex?
    ensures MutexHeld(Apply(s, op))
  {
    hide LogSafe;
    assert InSection(s, op.run);
    HolderSnoc(s.log, Released(op.run));
    OneInside(s);
    assert forall r :: InSection(s, r) ==> r == op.run;
  }

  lemma {:induction false} OutsideKeepsMutex(s: State, op: Op)
    requires MutexHeld(s) && Enabled(s, op) && (op.Start? || op.Finish? || op.Crash? || op.Tick?)
    ensures MutexHeld(Apply(s, op))
  {
    hide LogSafe, Holder;
    var s' := Apply(s, op);
    assert s'.log == s.log;
    assert MUTEX in s.locks ==> MUTEX in s'.locks && s'.locks[MUTEX] == s.locks[MUTEX];
    forall r | InSection(s', r) ensures InSection(s, r) && s'.runs[r] == s.runs[r] { }
  }

  /** From a state without an overlap so far, an acquisition makes one exactly when some run inside
      has outstayed its time. */
  lemma {:induction false} IntrusionIff(s: State, op: Op)
    requires MutexHeld(s) && op.AcquireMutex? && Enabled(s, op)
    ensures OneInSection(Apply(s, op)) <==> MutexOnTime(s, op)
  {
    hide LogSafe, Holder;
    var s' := Apply(s, op);
    if r :| InSection(s, r) && s.runs[r].mutexUntil < op.now {
      assert InSection(s', r) && InSection(s', op.run) && r != op.run;
    } else {
      OneInside(s);
      forall r, q | InSection(s', r) && InSection(s', q) ensures r == q {
        assert r != op.run ==> InSection(s, r);
        assert q != op.run ==> InSection(s, q);
      }
    }
  }

  lemma {:induction false} AcquireKeepsMutex(s: State, op: Op)
    requires MutexHeld(s) && op.AcquireMutex? && Enabled(s, op) && MutexOnTime(s, op)
    ensures MutexHeld(Apply(s, op))
  {
    hide LogSafe;
    var s' := Apply(s, op);
    HolderSnoc(s.log, Acquired(op.run));
    forall r | InSection(s', r) && r != op.run ensures InSection(s, r) && s'.runs[r] == s.runs[r] { }
  }

  lemma {:induction false} StepKeepsMutex(s: State, op: Op)
    requires MutexHeld(s) && Enabled(s, op) && MutexOnTime(s, op)
    ensures MutexHeld(Apply(s, op))
  {
    hide MutexHeld;
    if op.AcquireMutex? {
      AcquireKeepsMutex(s, op);
    } else if op.Send? {
      SendKeepsMutex(s, op);
    } else if op.ReleaseMutex? {
      ReleaseKeepsMutex(s, op);
    } else {
      OutsideKeepsMutex(s, op);
    }
  }

  lemma {:induction false} RunKeepsMutex(states: seq<State>, ops: seq<Op>, n: nat)
    requires Run(states, ops) && n <= |ops| && forall i :: 0 <= i < n ==> MutexOnTime(states[i], ops[i])
    ensures MutexHeld(states[n])
  {
    hide MutexHeld, MutexOnTime, Enabled;
    if n == 0 {
      assert MutexHeld(State(map[], states[0].clock, map[], [])) by { NobodyYet(states[0].clock); }
    } else {
      RunKeepsMutex(states, ops, n - 1);
      assert Enabled(states[n - 1], ops[n - 1]) && states[n] == Apply(states[n - 1], ops[n - 1]);
      StepKeepsMutex(states[n - 1], ops[n - 1]);
    }
  }

  lemma {:induction false} NobodyYet(clock: int)
    ensures MutexHeld(State(map[], clock, map[], [])) && LocksHeld(State(map[], clock, map[], []))
  {
  }

  /** Only a start can make two live runs share an execution lock, and only by taking it late. */
  lemma {:induction false} StepKeepsLocks(s: State, op: Op)
    requires LocksHeld(s) && Enabled(s, op) && LockOnTime(s, op)
    ensures LocksHeld(Apply(s, op))
  {
    var s' := Apply(s, op);
    forall r, lock | Holds(s', r, lock) && (op.Tick? || r != op.run) ensures Holds(s, r, lock) && s'.runs[r] == s.runs[r] { }
    if !op.Tick? && !op.Start? { assert forall lock :: Holds(s', op.run, lock) ==> Holds(s, op.run, lock); }
  }

  /** From a state without a shared lock so far, a start shares one exactly when the run that has the
      lock has outstayed its time. */
  lemma {:induction false} LateStartIff(s: State, op: Op)
    requires LocksHeld(s) && op.Start? && Enabled(s, op)
    ensures OneHolder(Apply(s, op)) <==> LockOnTime(s, op)
  {
    var s' := Apply(s, op);
    if r :| Holds(s, r, op.lock) && s.runs[r].until < op.now {
      assert Holds(s', r, op.lock) && Holds(s', op.run, op.lock) && r != op.run;
    } else {
      StepKeepsLocks(s, op);
    }
  }

  lemma {:induction false} RunKeepsLocks(states: seq<State>, ops: seq<Op>, n: nat)
    requires Run(states, ops) && n <= |ops| && forall i :: 0 <= i < n ==> LockOnTime(states[i], ops[i])
    ensures LocksHeld(states[n])
  {
    hide LocksHeld, LockOnTime, Enabled;
    if n == 0 {
      assert LocksHeld(State(map[], states[0].clock, map[], [])) by { NobodyYet(states[0].clock); }
    } else {
      RunKeepsLocks(states, ops, n - 1);
      assert Enabled(states[n - 1], ops[n - 1]) && states[n] == Apply(states[n - 1], ops[n - 1]);
      StepKeepsLocks(states[n - 1], ops[n - 1]);
    }
  }

  // ---------- the theorems ----------

  /** Over every run: never two runs between acquiring and releasing the mutex, exactly if it is never
      acquired while a run inside has outstayed its time. */
  lemma {:induction false} MutualExclusion(states: seq<State>, ops: seq<Op>, n: nat)
    requires Run(states, ops) && n <= |ops|
    ensures (forall i :: 0 <= i <= n ==> OneInSection(states[i])) <==> (forall i :: 0 <= i < n ==> MutexOnTime(states[i], ops[i]))
    decreases n
  {
    hide MutexHeld, MutexOnTime, OneInSection, Enabled;
    if n > 0 {
      MutualExclusion(states, ops, n - 1);
      var s, op := states[n - 1], ops[n - 1];
      assert Enabled(s, op) && states[n] == Apply(s, op);
      if forall i :: 0 <= i < n - 1 ==> MutexOnTime(states[i], ops[i]) {
        RunKeepsMutex(states, ops, n - 1);
        if op.AcquireMutex? { IntrusionIff(s, op); } else { StaysExclusive(s, op); }
      }
    } else {
      RunKeepsMutex(states, ops, 0);
      OneInside(states[0]);
    }
  }

  lemma {:induction false} StaysExclusive(s: State, op: Op)
    requires MutexHeld(s) && Enabled(s, op) && !op.AcquireMutex?
    ensures OneInSection(Apply(s, op)) && MutexOnTime(s, op)
  {
    StepKeepsMutex(s, op);
    OneInside(Apply(s, op));
  }

  /** Over every run: never two live runs with one execution lock, exactly if no such lock is taken
      while the run that has it has outstayed its time. */
  lemma {:induction false} ExecutionExclusion(states: seq<State>, ops: seq<Op>, n: nat)
    requires Run(states, ops) && n <= |ops|
    ensures (forall i :: 0 <= i <= n ==> OneHolder(states[i])) <==> (forall i :: 0 <= i < n ==> LockOnTime(states[i], ops[i]))
    decreases n
  {
    hide LocksHeld, LockOnTime, OneHolder, Enabled;
    if n > 0 {
      ExecutionExclusion(states, ops, n - 1);
      var s, op := states[n - 1], ops[n - 1];
      assert Enabled(s, op) && states[n] == Apply(s, op);
      if forall i :: 0 <= i < n - 1 ==> LockOnTime(states[i], ops[i]) {
        RunKeepsLocks(states, ops, n - 1);
        if op.Start? { LateStartIff(s, op); } else { StaysApart(s, op); }
      }
    } else {
      RunKeepsLocks(states, ops, 0);
      LocksApart(states[0]);
    }
  }

  lemma {:induction false} StaysApart(s: State, op: Op)
    requires LocksHeld(s) && Enabled(s, op) && !op.Start?
    ensures OneHolder(Apply(s, op)) && LockOnTime(s, op)
  {
    StepKeepsLocks(s, op);
  }

  lemma {:induction false} LocksApart(s: State)
    requires LocksHeld(s)
    ensures OneHolder(s)
  {
  }

  /** Every broadcast and every release is made by the run that acquired the mutex last, before
      anybody else acquired it, if the mutex is never acquired while a run inside has outstayed its time. */
  lemma {:induction false} BroadcastsInsideSection(states: seq<State>, ops: seq<Op>, n: nat, k: nat)
    requires Run(states, ops) && n <= |ops| && forall i :: 0 <= i < n ==> MutexOnTime(states[i], ops[i])
    requires k < |states[n].log| && !states[n].log[k].Acquired?
    ensures Holder(states[n].log[..k]) == [states[n].log[k].run]
  {
    RunKeepsMutex(states, ops, n);
  }

  /** Every broadcast and release in the log comes after an acquisition by the same run. */
  ghost predicate AcquiredBefore(log: seq<Event>, k: nat, run: string) {
    exists j :: 0 <= j < k && j < |log| && log[j] == Acquired(run)
  }

  ghost predicate Earned(s: State) {
    && (forall k :: 0 <= k < |s.log| && !s.log[k].Acquired? ==> AcquiredBefore(s.log, k, s.log[k].run))
    && (forall r :: InSection(s, r) ==> AcquiredBefore(s.log, |s.log|, r))
  }

  lemma {:induction false} AcquiredBeforeGrows(log: seq<Event>, e: Event, k: nat, run: string)
    requires AcquiredBefore(log, k, run)
    ensures forall m: nat :: k <= m ==> AcquiredBefore(log + [e], m, run)
  {
    var j :| 0 <= j < k && j < |log| && log[j] == Acquired(run);
    assert (log + [e])[j] == Acquired(run);
  }

  lemma {:induction false} EarnedSnoc(s: State, e: Event)
    requires Earned(s) && (!e.Acquired? ==> InSection(s, e.run))
    ensures var log := s.log + [e];
            && (forall k :: 0 <= k < |log| && !log[k].Acquired? ==> AcquiredBefore(log, k, log[k].run))
            && (forall r :: InSection(s, r) || e == Acquired(r) ==> AcquiredBefore(log, |log|, r))
  {
    var log := s.log + [e];
    forall k | 0 <= k < |log| && !log[k].Acquired? ensures AcquiredBefore(log, k, log[k].run) {
      if k < |s.log| { assert log[k] == s.log[k]; }
      AcquiredBeforeGrows(s.log, e, k, log[k].run);
    }
    forall r | InSection(s, r) || e == Acquired(r) ensures AcquiredBefore(log, |log|, r) {
      if e == Acquired(r) {
        assert log[|s.log|] == Acquired(r);
      } else {
        AcquiredBeforeGrows(s.log, e, |s.log|, r);
      }
    }
  }

  lemma {:induction false} StepKeepsEarned(s: State, op: Op)
    requires Earned(s) && Enabled(s, op)
    ensures Earned(Apply(s, op))
  {
    hide AcquiredBefore;
    var s' := Apply(s, op);
    assert forall r :: InSection(s', r) ==> InSection(s, r) || (op == AcquireMutex(r, op.now) && s'.log == s.log + [Acquired(r)]);
    if |s'.log| > |s.log| {
      EarnedSnoc(s, s'.log[|s.log|]);
    }
  }

  /** Over every run, on time or not: a run that failed to acquire the mutex never broadcasts or
      releases it. */
  lemma {:induction false} ReleasesAreEarned(states: seq<State>, ops: seq<Op>, n: nat, k: nat)
    requires Run(states, ops) && n <= |ops| && k < |states[n].log| && !states[n].log[k].Acquired?
    ensures AcquiredBefore(states[n].log, k, states[n].log[k].run)
  {
    RunKeepsEarned(states, ops, n);
  }

  lemma {:induction false} RunKeepsEarned(states: seq<State>, ops: seq<Op>, n: nat)
    requires Run(states, ops) && n <= |ops|
    ensures Earned(states[n])
  {
    if n > 0 {
      hide Earned, Enabled;
      RunKeepsEarned(states, ops, n - 1);
      assert Enabled(states[n - 1], ops[n - 1]) && states[n] == Apply(states[n - 1], ops[n - 1]);
      StepKeepsEarned(states[n - 1], ops[n - 1]);
    }
  }

  // ---------- no lock is left behind ----------

  /** A run that ends frees its execution lock: the next run that asks for it gets it. */
  lemma {:induction false} LockHandedOver(s: State, run: string, next: string, ttlMs: int, now: int)
    requires Enabled(s, Finish(run)) && LocksHeld(s) && next !in s.runs && 0 < now <= s.clock
    ensures var lock := s.runs[run].lock;
            var ended := Apply(s, Finish(run));
            && Enabled(ended, Start(next, lock, ttlMs, now))
            && Holds(Apply(ended, Start(next, lock, ttlMs, now)), next, lock)
  {
    assert Holds(s, run, s.runs[run].lock);
  }

  /** A run that leaves the section frees the mutex: the next run that asks for it gets in. */
  lemma {:induction false} MutexHandedOver(s: State, run: string, next: string, now: int)
    requires Enabled(s, ReleaseMutex(run)) && next != run && Enabled(s, AcquireMutex(next, now)) && 0 < now
    ensures var left := Apply(s, ReleaseMutex(run));
            Enabled(left, AcquireMutex(next, now)) && InSection(Apply(left, AcquireMutex(next, now)), next)
  {
  }

  // ---------- what goes wrong late ----------

  /** Three agents; the first is still inside when its time is up and the second gets in. */
  function LateOps(): seq<Op> {
    [Start("slow", "agent-1", 600_000, 0), AcquireMutex("slow", 0), Tick(300_001),
     Start("next", "agent-2", 600_000, 300_001), AcquireMutex("next", 300_001),
     ReleaseMutex("slow"), Start("third", "agent-3", 600_000, 300_001), AcquireMutex("third", 300_001)]
  }

  /** One run still inside after its time, and a second one gets in. Then nobody inside is late, and
      still a third one gets in: the late run, leaving, released the mutex of the run after it. */
  lemma {:induction false} LateReleaseAdmitsThird() returns (states: seq<State>)
    ensures Run(states, LateOps())
    ensures InSection(states[5], "slow") && InSection(states[5], "next")
    ensures MutexOnTime(states[7], LateOps()[7])
    ensures InSection(states[8], "next") && InSection(states[8], "third")
  {
    var ops := LateOps();
    var s0 := State(map[], 0, map[], []);
    var s1 := Apply(s0, ops[0]);
    var s2 := Apply(s1, ops[1]);
    assert s2.locks == map["agent-1" := 600_000, MUTEX := 300_000];
    var s3 := Apply(s2, ops[2]);
    var s4 := Apply(s3, ops[3]);
    var s5 := Apply(s4, ops[4]);
    assert s5.locks[MUTEX] == 600_001;
    var s6 := Apply(s5, ops[5]);
    assert s6.locks[MUTEX] == 0;
    var s7 := Apply(s6, ops[6]);
    var s8 := Apply(s7, ops[7]);
    states := [s0, s1, s2, s3, s4, s5, s6, s7, s8];
  }
}
