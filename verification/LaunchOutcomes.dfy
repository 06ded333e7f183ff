/** What a launch that nobody disturbs leaves behind, in terms of what the script did. */
module LaunchOutcomes {
  import opened Wrappers
  import opened CommandDomain
  import opened CommandStore
  import opened CommandPool
  import opened CommandLifecycle
  import opened CommandExecutor
  import opened RunProtocol

  /** The record and the signals left by a launch at this instant. */
  function Leaves(cfg: Config, start: int, env: TaskEnv, kill: KillEnv): (Option<Cell>, seq<Signal>) {
    TaskAlone(cfg, Waited(cfg, start, env.wait), start + env.wait, env, kill)
  }

  predicate Starting(cfg: Config, env: TaskEnv) {
    AllStart(env.steps, cfg.logged)
  }

  /** The record is still there when the script is over. */
  predicate Lasts(cfg: Config, env: TaskEnv) {
    && env.wait < cfg.timeout + 30
    && (if Pgids(env.steps) == [] then env.wait + env.runs < cfg.timeout + 30 else env.runs < cfg.timeout + 30)
  }

  /** The record in every field but those of its result. */
  predicate Identified(r: Record, cfg: Config, groups: seq<int>) {
    && r.killable == cfg.killable && r.contract == cfg.contract && r.pgids == groups
    && r.runLogPath == if cfg.logged then Some(cfg.logPath) else None
  }

  /** A script that ends with 0 gives SUCCESS; its output is kept unless it has a log. */
  lemma SuccessIsStored(cfg: Config, start: int, env: TaskEnv, kill: KillEnv, out: string)
    requires Starting(cfg, env) && Lasts(cfg, env) && env.end == Exits(Some(0), out)
    ensures var (cell, sigs) := Leaves(cfg, start, env, kill);
            && sigs == []
            && cell.Some? && Identified(cell.value.rec, cfg, Pgids(env.steps))
            && cell.value.rec.status == Success && cell.value.rec.exitCode == Some(0)
            && cell.value.rec.output == Some(if cfg.logged then "" else out)
            && cell.value.expiresAt == start + env.wait + env.runs + cfg.resultTtl
  {
  }

  /** Any other exit code, or none, gives FAILED with it. Without a log the output is kept whole;
      with one, the end of what came over the channel or else of the log is. */
  lemma FailureIsStored(cfg: Config, start: int, env: TaskEnv, kill: KillEnv, code: Option<int>, out: string)
    requires Starting(cfg, env) && Lasts(cfg, env) && env.end == Exits(code, out) && code != Some(0)
    ensures var (cell, sigs) := Leaves(cfg, start, env, kill);
            && sigs == []
            && cell.Some? && Identified(cell.value.rec, cfg, Pgids(env.steps))
            && cell.value.rec.status == Failed && cell.value.rec.exitCode == code
            && cell.value.rec.output ==
               (if !cfg.logged then Some(out)
                else FailureTail(if out == "" then env.logTail else out, env.tailLines))
  {
  }

  /** A step that does not start, or an exception while the output is collected, gives FAILED
      without an exit code. */
  lemma FaultIsStored(cfg: Config, start: int, env: TaskEnv, kill: KillEnv)
    requires if Starting(cfg, env) then Lasts(cfg, env) && env.end.Breaks? else env.wait < cfg.timeout + 30
    ensures var (cell, sigs) := Leaves(cfg, start, env, kill);
            && sigs == []
            && cell.Some? && Identified(cell.value.rec, cfg, if Starting(cfg, env) then Pgids(env.steps) else [])
            && cell.value.rec.status == Failed && cell.value.rec.exitCode == None && cell.value.rec.output == None
            && cell.value.rec.message == Some("Execution failed")
  {
  }

  lemma StillRunning(cfg: Config, start: int, env: TaskEnv)
    requires Starting(cfg, env) && Lasts(cfg, env) && env.end.Hangs?
    ensures var p := ExecAlone(cfg, Waited(cfg, start, env.wait), start + env.wait, env);
            && p.end == TimedOut && p.pgids == Pgids(env.steps)
            && p.cell.Some? && p.cell.value.rec == InitialRecord(cfg).(pgids := p.pgids)
  {
  }

  /** A script that never ends is killed with all its groups if the Run may be killed; otherwise
      it is let go, RUNNING and without a signal. */
  lemma TimeoutKills(cfg: Config, start: int, env: TaskEnv, kill: KillEnv)
    requires Starting(cfg, env) && Lasts(cfg, env) && env.end.Hangs?
    ensures var (cell, sigs) := Leaves(cfg, start, env, kill);
            && cell.Some? && Identified(cell.value.rec, cfg, Pgids(env.steps))
            && cell.value.rec.exitCode == None && cell.value.rec.output == None
            && (if cfg.killable
                then cell.value.rec.status == Killed && Kills(sigs, Pgids(env.steps), kill.delivery)
                     && cell.value.rec.message == Some("Command timed out and was killed.")
                else cell.value.rec.status == Running && sigs == [])
  {
    StillRunning(cfg, start, env);
    var p := ExecAlone(cfg, Waited(cfg, start, env.wait), start + env.wait, env);
    KillLeaves(p.cell, Some(Entry(cfg.killable, p.pgids)), false, TIMED_OUT, kill, p.now + cfg.resultTtl);
  }

  /** A record that has expired on the way stays gone, and then nothing is signalled. */
  lemma ExpiredLeavesNothing(cfg: Config, start: int, env: TaskEnv, kill: KillEnv)
    requires if Starting(cfg, env) then !Lasts(cfg, env) else env.wait >= cfg.timeout + 30
    ensures Leaves(cfg, start, env, kill) == (None, [])
  {
  }
}
