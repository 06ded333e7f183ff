/** When writing the process groups takes life from a result that is stored already. */
module ShortenedLife {
  import opened Wrappers
  import opened CommandDomain
  import opened ExitMarker
  import opened RunProtocol
  import opened RunInvariants
  import opened RunTheorems
  import opened Finality
  import opened RecordTtl

  /** The task writes the process groups over a SUCCESS or FAILED that then expires sooner. */
  predicate Shortens(s: Sys) {
    var n := Step(s, Commit(TaskWriter));
    && s.pod.task.WritingPgids? && Finished(s)
    && n.cell.Some? && n.cell.value.expiresAt < s.cell.value.expiresAt
  }

  /** Some run of such a Run does that next. */
  ghost predicate CanShorten(cfg: Config) {
    exists start: int, run: seq<Action> :: Shortens(Exec(Init(cfg, start), run))
  }

  // ----- Where it cannot

  /** No record lives longer than the longest TTL any write gives. */
  predicate BoundInv(s: Sys) {
    s.cell.Some? ==> s.cell.value.expiresAt <= s.now + Max(s.cfg.resultTtl, s.cfg.timeout + 30)
  }

  /** Without a log only the task itself can have finished the record, as its last access. */
  predicate OwnResultInv(s: Sys) {
    Finished(s) && !s.cfg.logged ==> s.pod.task.Cleaning? || s.pod.task.Ended? || s.pod.task.Crashed?
  }

  lemma TaskKeepsLife(s: Sys, t: TaskAction)
    requires BoundInv(s) && OwnResultInv(s)
    ensures BoundInv(TaskStep(s, t)) && OwnResultInv(TaskStep(s, t))
  {
  }

  lemma TaskWriteKeepsLife(s: Sys)
    requires BoundInv(s) && OwnResultInv(s)
    ensures BoundInv(WriteStep(s, TaskWriter)) && OwnResultInv(WriteStep(s, TaskWriter))
  {
  }

  lemma KillWriteKeepsLife(s: Sys, k: nat)
    requires BoundInv(s) && OwnResultInv(s)
    ensures BoundInv(WriteStep(s, KillWriter(k))) && OwnResultInv(WriteStep(s, KillWriter(k)))
  {
  }

  lemma PollWriteKeepsLife(s: Sys, p: nat)
    requires MarkerInv(s) && BoundInv(s) && OwnResultInv(s)
    ensures BoundInv(WriteStep(s, PollWriter(p))) && OwnResultInv(WriteStep(s, PollWriter(p)))
  {
  }

  lemma StepKeepsLife(s: Sys, a: Action)
    requires MarkerInv(s) && BoundInv(s) && OwnResultInv(s)
    ensures BoundInv(Step(s, a)) && OwnResultInv(Step(s, a))
  {
    match a
    case Do(t) => TaskKeepsLife(s, t);
    case Commit(w) =>
      match w {
        case TaskWriter => TaskWriteKeepsLife(s);
        case KillWriter(k) => KillWriteKeepsLife(s, k);
        case PollWriter(p) => PollWriteKeepsLife(s, p);
      }
    case _ =>
  }

  lemma {:induction false} ReachableLife(cfg: Config, start: int, run: seq<Action>)
    requires ValidConfig(cfg)
    ensures BoundInv(Exec(Init(cfg, start), run)) && OwnResultInv(Exec(Init(cfg, start), run))
  {
    if run != [] {
      var shorter := run[..|run| - 1];
      ReachableLife(cfg, start, shorter);
      Reachable(cfg, start, shorter);
      StepKeepsLife(Exec(Init(cfg, start), shorter), run[|run| - 1]);
    }
  }

  // ----- Where it does

  const SPAWN: seq<Action> := [Do(Spawned([7]))]

  /** The script is over before the task has written its groups, and a poll heals the record. */
  function HealedFirst(): seq<Action> {
    LAUNCH + (SPAWN + (ScriptEnds() + HEAL))
  }

  lemma LaunchesAtZero(cfg: Config)
    requires cfg.timeout + 30 > 0
    ensures Exec(Init(cfg, 0), LAUNCH).now == 0
  {
    ExecFour(Init(cfg, 0), Do(PoolAdd), Do(SaveInitial(true)), Do(Acquire), OnRemote(Start));
  }

  lemma HealsRunning(s: Sys)
    requires s.pollers == map[] && s.script.exitFile == Some(MarkerText(0))
    requires s.cell.Some? && s.cell.value.rec.status == Running && Healable(s.cell.value.rec)
    ensures var n := Exec(s, HEAL);
            && n.cfg == s.cfg && n.now == s.now && n.pod == s.pod && Finished(n)
            && n.cell.value.expiresAt == s.now + s.cfg.resultTtl
  {
    Looks(s);
    assert HEAL[..|HEAL| - 1] == LOOK;
    assert Exec(s, HEAL) == WriteStep(Exec(s, LOOK), PollWriter(0));
  }

  lemma HealedBeforeGroups(s: Sys, cfg: Config)
    requires Launched(s, cfg) && ValidConfig(cfg) && cfg.logged
    ensures var n := Exec(s, SPAWN + (ScriptEnds() + HEAL));
            && n.cfg == cfg && n.now == s.now && n.pod.task == WritingPgids && Finished(n)
            && n.cell.value.expiresAt == s.now + cfg.resultTtl
  {
    ExecOne(s, Do(Spawned([7])));
    var spawned := Exec(s, SPAWN);
    EndsWithMarker(spawned);
    var ended := Exec(spawned, ScriptEnds());
    HealsRunning(ended);
    ExecConcat(spawned, ScriptEnds(), HEAL);
    ExecConcat(s, SPAWN, ScriptEnds() + HEAL);
  }

  lemma HealedFirstShortens(cfg: Config)
    requires ValidConfig(cfg) && cfg.logged && cfg.timeout + 30 > 0 && cfg.resultTtl > cfg.timeout + 30
    ensures Shortens(Exec(Init(cfg, 0), HealedFirst()))
  {
    Launches(cfg);
    LaunchesAtZero(cfg);
    var launched := Exec(Init(cfg, 0), LAUNCH);
    HealedBeforeGroups(launched, cfg);
    ExecConcat(Init(cfg, 0), LAUNCH, SPAWN + (ScriptEnds() + HEAL));
  }

  /** A process-group write can take life from a stored result if and only if the Run is logged
      and results are kept for longer than the timeout plus 30 seconds. */
  lemma ShortensExactly(cfg: Config)
    requires ValidConfig(cfg) && cfg.timeout + 30 > 0
    ensures CanShorten(cfg) <==> cfg.logged && cfg.resultTtl > cfg.timeout + 30
  {
    if cfg.logged && cfg.resultTtl > cfg.timeout + 30 {
      HealedFirstShortens(cfg);
    } else {
      forall start: int, run: seq<Action>
        ensures !Shortens(Exec(Init(cfg, start), run))
      {
        ReachableLife(cfg, start, run);
        ConfigFixed(cfg, start, run);
      }
    }
  }
}
