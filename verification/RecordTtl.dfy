/** How long the stored record outlives the task that needs it: it is saved for the timeout
    plus 30 seconds, and every later write restarts its clock. */
module RecordTtl {
  import opened Wrappers
  import opened CommandStore
  import opened RunProtocol
  import opened RunInvariants
  import opened RunTheorems

  /** Time the record is good for after any write so far. */
  function Lifetime(s: Sys): int {
    if s.past.left && s.cfg.resultTtl < s.cfg.timeout + 30 then s.cfg.resultTtl else s.cfg.timeout + 30
  }

  /** The initial save succeeded and the pod is alive. */
  predicate Saved(t: Task) {
    !BeforeSave(t) && !t.Crashed?
  }

  /** The record cannot expire before this instant, and has not. */
  predicate GoodUntil(s: Sys, t: int) {
    if s.cell.Some? then s.cell.value.expiresAt >= t else s.now >= t
  }

  /** The process groups were written and the task still has accesses ahead. */
  predicate PgidsLanded(s: Sys) {
    (s.pod.task.Collecting? || s.pod.task.Backfilling? || s.pod.task.Storing?) && s.pod.pgids != []
  }

  predicate TtlInv(s: Sys) {
    && (Saved(s.pod.task) ==>
          && s.cfg.timeout + 30 > 0
          && s.now >= s.pod.savedAt
          && GoodUntil(s, s.pod.savedAt + Lifetime(s)))
    && (Executing(s.pod.task) ==> s.now >= s.pod.startedAt)
    && (PgidsLanded(s) ==> GoodUntil(s, s.pod.startedAt + Lifetime(s)))
  }

  lemma TaskKeepsTtl(s: Sys, t: TaskAction)
    requires LaunchInv(s) && TtlInv(s)
    ensures TtlInv(TaskStep(s, t))
  {
  }

  lemma TaskWriteKeepsTtl(s: Sys)
    requires ValidConfig(s.cfg) && TtlInv(s)
    ensures TtlInv(WriteStep(s, TaskWriter))
  {
  }

  lemma KillWriteKeepsTtl(s: Sys, k: nat)
    requires ValidConfig(s.cfg) && GateInv(s) && TtlInv(s)
    ensures TtlInv(WriteStep(s, KillWriter(k)))
  {
  }

  lemma PollWriteKeepsTtl(s: Sys, p: nat)
    requires ValidConfig(s.cfg) && TtlInv(s)
    ensures TtlInv(WriteStep(s, PollWriter(p)))
  {
  }

  lemma StepKeepsTtl(s: Sys, a: Action)
    requires ValidConfig(s.cfg) && LaunchInv(s) && GateInv(s) && TtlInv(s)
    ensures TtlInv(Step(s, a))
  {
    match a
    case Do(t) => TaskKeepsTtl(s, t);
    case Commit(w) =>
      match w {
        case TaskWriter => TaskWriteKeepsTtl(s);
        case KillWriter(k) => KillWriteKeepsTtl(s, k);
        case PollWriter(p) => PollWriteKeepsTtl(s, p);
      }
    case _ =>
  }

  lemma {:induction false} ReachableTtl(cfg: Config, start: int, run: seq<Action>)
    requires ValidConfig(cfg)
    ensures TtlInv(Exec(Init(cfg, start), run))
  {
    if run != [] {
      var shorter := run[..|run| - 1];
      ReachableTtl(cfg, start, shorter);
      Reachable(cfg, start, shorter);
      StepKeepsTtl(Exec(Init(cfg, start), shorter), run[|run| - 1]);
    }
  }

  /** Inside `wait_for`, before its deadline. */
  predicate BeforeDeadline(s: Sys) {
    Executing(s.pod.task) && s.now < s.pod.startedAt + s.cfg.timeout
  }

  /** With a semaphore wait of at most 30 seconds, every access of the task before its deadline
      finds the record, as long as nobody else ended the Run or results are kept long enough. */
  lemma AliveAfterShortWait(cfg: Config, start: int, run: seq<Action>)
    requires ValidConfig(cfg)
    requires var s := Exec(Init(cfg, start), run);
             && BeforeDeadline(s) && s.pod.startedAt - s.pod.savedAt <= 30
             && (!s.past.left || cfg.resultTtl >= cfg.timeout + 30)
    ensures Exec(Init(cfg, start), run).cell.Some?
  {
    ReachableTtl(cfg, start, run);
    ConfigFixed(cfg, start, run);
  }

  /** Whatever the wait, once the process groups were written the later accesses before the
      deadline find the record. */
  lemma AliveOncePgidsLanded(cfg: Config, start: int, run: seq<Action>)
    requires ValidConfig(cfg)
    requires var s := Exec(Init(cfg, start), run);
             && BeforeDeadline(s) && PgidsLanded(s)
             && (!s.past.left || cfg.resultTtl >= cfg.timeout)
    ensures Exec(Init(cfg, start), run).cell.Some?
  {
    ReachableTtl(cfg, start, run);
    ConfigFixed(cfg, start, run);
  }

  // ----- The bound on the wait is exact

  /** Whatever happens, a task that waited w seconds finds its record at every access before its deadline. */
  ghost predicate SafeWait(cfg: Config, w: int) {
    forall start: int, run: seq<Action> ::
      var s := Exec(Init(cfg, start), run);
      BeforeDeadline(s) && s.pod.startedAt - s.pod.savedAt == w ==> s.cell.Some?
  }

  function Min(a: int, b: int): int {
    if a < b then a else b
  }

  function Max(a: int, b: int): int {
    if a < b then b else a
  }

  /** A Run that nobody touches while it waits, looked at once its record is due to expire. */
  function SlowRun(cfg: Config, w: nat): seq<Action>
    requires cfg.timeout > 0
  {
    [Do(PoolAdd), Do(SaveInitial(true)), Tick(w), Do(Acquire), Tick(Max(0, cfg.timeout + 30 - w))]
  }

  /** A Run that a forced kill flips to KILLING while it waits. */
  function FlippedRun(cfg: Config, w: nat): seq<Action>
    requires cfg.resultTtl > 0
  {
    [Do(PoolAdd), Do(SaveInitial(true)),
     ByKiller(0, Begin(true, true, "")), ByKiller(0, Guard), ByKiller(0, CheckConfig(true)), Commit(KillWriter(0)),
     Tick(w), Do(Acquire), Tick(Max(0, cfg.resultTtl - w))]
  }

  lemma SlowRunLosesRecord(cfg: Config, w: nat)
    requires ValidConfig(cfg) && cfg.timeout > 0 && w > 30
    ensures var s := Exec(Init(cfg, 0), SlowRun(cfg, w));
            BeforeDeadline(s) && s.pod.startedAt - s.pod.savedAt == w && s.cell.None?
  {
    var run := SlowRun(cfg, w);
    var s0 := Init(cfg, 0);
    Replay(cfg, 0, run, 0, s0);
    var s1 := Step(s0, run[0]);
    Replay(cfg, 0, run, 1, s1);
    var s2 := Step(s1, run[1]);
    assert s2.cell.Some? && s2.cell.value.expiresAt == cfg.timeout + 30 && s2.pod.task == Queued && s2.pod.savedAt == 0;
    Replay(cfg, 0, run, 2, s2);
    var s3 := Step(s2, run[2]);
    Replay(cfg, 0, run, 3, s3);
    var s4 := Step(s3, run[3]);
    assert s4.pod.task == Spawning && s4.pod.startedAt == w;
    Replay(cfg, 0, run, 4, s4);
    var s5 := Step(s4, run[4]);
  }

  lemma QueuedAtOnce(cfg: Config, w: nat)
    requires ValidConfig(cfg) && cfg.timeout > 0
    ensures var s := At(cfg, 0, FlippedRun(cfg, w), 2);
            && s.now == 0 && s.pod.task == Queued && s.pod.savedAt == 0 && s.cfg == cfg && s.pod.pooled && s.killers == map[]
            && s.cell == Some(Cell(InitialRecord(cfg), cfg.timeout + 30))
  {
    var run := FlippedRun(cfg, w);
    var s0 := Init(cfg, 0);
    Replay(cfg, 0, run, 0, s0);
    var s1 := Step(s0, run[0]);
    Replay(cfg, 0, run, 1, s1);
    var s2 := Step(s1, run[1]);
  }

  lemma GatingWhileQueued(cfg: Config, w: nat)
    requires ValidConfig(cfg) && cfg.timeout > 0
    ensures var s := At(cfg, 0, FlippedRun(cfg, w), 2);
            At(cfg, 0, FlippedRun(cfg, w), 5) == s.(killers := map[0 := Killer(true, true, "", Gating)])
  {
    var run := FlippedRun(cfg, w);
    QueuedAtOnce(cfg, w);
    var s2 := At(cfg, 0, run, 2);
    Replay(cfg, 0, run, 2, s2);
    var s3 := s2.(killers := map[0 := Killer(true, true, "", Guarding)]);
    assert Step(s2, run[2]) == s3;
    Replay(cfg, 0, run, 3, s3);
    var s4 := s2.(killers := map[0 := Killer(true, true, "", CheckingConfig)]);
    assert Step(s3, run[3]) == s4;
    Replay(cfg, 0, run, 4, s4);
    assert Step(s4, run[4]) == s2.(killers := map[0 := Killer(true, true, "", Gating)]);
  }

  /** The flip happens at once, while the task is still waiting. */
  lemma FlippedWhileQueued(cfg: Config, w: nat)
    requires ValidConfig(cfg) && cfg.timeout > 0
    ensures var s := At(cfg, 0, FlippedRun(cfg, w), 6);
            && s.now == 0 && s.pod.task == Queued && s.pod.savedAt == 0 && s.cfg == cfg
            && s.cell.Some? && s.cell.value.expiresAt == cfg.resultTtl
  {
    var run := FlippedRun(cfg, w);
    QueuedAtOnce(cfg, w);
    GatingWhileQueued(cfg, w);
    Replay(cfg, 0, run, 5, At(cfg, 0, run, 5));
  }

  lemma FlippedRunLosesRecord(cfg: Config, w: nat)
    requires ValidConfig(cfg) && cfg.timeout > 0 && w <= 30 && w > cfg.resultTtl - cfg.timeout
    ensures var s := Exec(Init(cfg, 0), FlippedRun(cfg, w));
            BeforeDeadline(s) && s.pod.startedAt - s.pod.savedAt == w && s.cell.None?
  {
    var run := FlippedRun(cfg, w);
    FlippedWhileQueued(cfg, w);
    var s6 := At(cfg, 0, run, 6);
    Replay(cfg, 0, run, 6, s6);
    var s7 := Step(s6, run[6]);
    Replay(cfg, 0, run, 7, s7);
    var s8 := Step(s7, run[7]);
    Replay(cfg, 0, run, 8, s8);
    var s9 := Step(s8, run[8]);
  }

  /** Waiting is safe in every schedule exactly up to 30 seconds, or less where results are kept
      for less than the timeout plus 30 seconds. */
  lemma SafeWaitExactly(cfg: Config, w: nat)
    requires ValidConfig(cfg) && cfg.timeout > 0
    ensures SafeWait(cfg, w) <==> w <= Min(30, cfg.resultTtl - cfg.timeout)
  {
    if w <= Min(30, cfg.resultTtl - cfg.timeout) {
      forall start: int, run: seq<Action>
        ensures var s := Exec(Init(cfg, start), run);
                BeforeDeadline(s) && s.pod.startedAt - s.pod.savedAt == w ==> s.cell.Some?
      {
        ReachableTtl(cfg, start, run);
        ConfigFixed(cfg, start, run);
      }
    } else if w > 30 {
      SlowRunLosesRecord(cfg, w);
    } else {
      FlippedRunLosesRecord(cfg, w);
    }
  }
}
