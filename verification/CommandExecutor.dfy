/** Launching a Run as it is written: the pool entry, the initial save, the task that executes,
    collects and stores, its timeout and its clean-up. Left alone, it does what the protocol's
    steps of the launching pod do. */
module CommandExecutor {
  import opened Wrappers
  import opened Text
  import opened CommandDomain
  import opened CommandStore
  import opened CommandPool
  import opened CommandLifecycle
  import opened Decimal
  import opened ExitMarker
  import opened RunProtocol

  // ----- Spawning

  /** What a spawned step prints on stderr before it execs. */
  datatype Handshake = Handshake(pgidLine: string, readyLine: string)

  datatype StartError = SpawnFailed | NoHandshake | EmptyPipeline

  /** The step was spawned and, if its output is detached, said READY. */
  predicate Starts(step: Option<Handshake>, detached: bool) {
    step.Some? && (detached ==> Strip(step.value.readyLine) == "READY")
  }

  predicate AllStart(steps: seq<Option<Handshake>>, detached: bool) {
    steps != [] && forall i :: 0 <= i < |steps| ==> Starts(steps[i], detached)
  }

  function PgidOf(step: Option<Handshake>): Option<int> {
    if step.Some? then ParseInt(Strip(step.value.pgidLine)) else None
  }

  /** The process groups of the steps that printed one. */
  function Pgids(steps: seq<Option<Handshake>>): seq<int> {
    if steps == [] then []
    else
      var pgid := PgidOf(steps[|steps| - 1]);
      Pgids(steps[..|steps| - 1]) + if pgid.Some? then [pgid.value] else []
  }

  /** What the wrapper of a detached step prints. */
  function Announcement(group: nat): Handshake {
    Handshake(Print(group) + "\n", "READY\n")
  }

  predicate Announces(steps: seq<Option<Handshake>>, groups: seq<nat>) {
    |steps| == |groups| && forall i :: 0 <= i < |steps| ==> steps[i] == Some(Announcement(groups[i]))
  }

  lemma AnnouncementIsRead(group: nat, detached: bool)
    ensures Starts(Some(Announcement(group)), detached) && PgidOf(Some(Announcement(group))) == Some(group)
  {
    var t := "READY\n";
    assert LStrip(t) == t && t[..5] == "READY" && RStrip("READY") == "READY";
    DigitsStripped(Print(group));
    ValueOfPrint(group);
  }

  /** Such steps all start, and their groups are the ones printed, in order. */
  lemma {:induction false} AnnouncedAreRead(steps: seq<Option<Handshake>>, groups: seq<nat>, detached: bool)
    requires Announces(steps, groups)
    ensures steps != [] ==> AllStart(steps, detached)
    ensures Pgids(steps) == groups
  {
    if steps != [] {
      var n := |steps| - 1;
      AnnouncedAreRead(steps[..n], groups[..n], detached);
      AnnouncementIsRead(groups[n], detached);
      assert groups == groups[..n] + [groups[n]];
    }
  }

  lemma AnyAnnouncedAreRead(steps: seq<Option<Handshake>>, detached: bool)
    ensures forall groups :: Announces(steps, groups) ==> Pgids(steps) == groups && (steps != [] ==> AllStart(steps, detached))
  {
    forall groups: seq<nat> | Announces(steps, groups)
      ensures Pgids(steps) == groups && (steps != [] ==> AllStart(steps, detached))
    {
      AnnouncedAreRead(steps, groups, detached);
    }
  }

  /** The line that step printed spells this group. */
  ghost predicate Shows(step: Option<Handshake>, group: int) {
    step.Some? && Spells(Strip(step.value.pgidLine), group)
  }

  /** These groups were printed by the steps at these places, in order, and no other step printed one. */
  ghost predicate PrintedAt(steps: seq<Option<Handshake>>, groups: seq<int>, at: seq<nat>) {
    && |at| == |groups|
    && (forall j :: 0 <= j < |at| ==> at[j] < |steps| && Shows(steps[at[j]], groups[j]))
    && (forall j, k :: 0 <= j < k < |at| ==> at[j] < at[k])
    && (forall i, group :: 0 <= i < |steps| && Shows(steps[i], group) ==> i in at)
  }

  lemma ShowsExactly(step: Option<Handshake>, group: int)
    ensures PgidOf(step) == Some(group) <==> Shows(step, group)
  {
    if step.Some? {
      ParsesExactly(Strip(step.value.pgidLine), group);
    }
  }

  lemma PrintedOneMore(front: seq<Option<Handshake>>, groups: seq<int>, at: seq<nat>, step: Option<Handshake>, group: int)
    requires PrintedAt(front, groups, at) && PgidOf(step) == Some(group)
    ensures PrintedAt(front + [step], groups + [group], at + [|front|])
  {
    var steps, at' := front + [step], at + [|front|];
    ShowsExactly(step, group);
    forall i, g | 0 <= i < |steps| && Shows(steps[i], g)
      ensures i in at'
    {
      if i < |front| {
        assert front[i] == steps[i] && i in at;
      } else {
        assert at'[|at|] == i;
      }
    }
  }

  lemma PrintedNoMore(front: seq<Option<Handshake>>, groups: seq<int>, at: seq<nat>, step: Option<Handshake>)
    requires PrintedAt(front, groups, at) && PgidOf(step).None?
    ensures PrintedAt(front + [step], groups, at)
  {
    var steps := front + [step];
    forall i, g | 0 <= i < |steps| && Shows(steps[i], g)
      ensures i in at
    {
      ShowsExactly(step, g);
      assert i < |front| && front[i] == steps[i];
    }
  }

  /** The groups read are exactly those whose line spells a number; any other line adds none. */
  lemma {:induction false} PgidsAreThePrinted(steps: seq<Option<Handshake>>) returns (at: seq<nat>)
    ensures PrintedAt(steps, Pgids(steps), at)
  {
    at := [];
    if steps != [] {
      var front, step := steps[..|steps| - 1], steps[|steps| - 1];
      at := PgidsAreThePrinted(front);
      assert steps == front + [step];
      match PgidOf(step) {
        case Some(group) =>
          PrintedOneMore(front, Pgids(front), at, step, group);
          at := at + [|front|];
        case None =>
          PrintedNoMore(front, Pgids(front), at, step);
          assert Pgids(steps) == Pgids(front) + [];
      }
    }
  }

  /** `_execute_pipeline`: one step after the other; the entry learns the groups once all have started. */
  method ExecutePipeline(pool: RunningPool, id: string, steps: seq<Option<Handshake>>, detached: bool)
    returns (r: Result<(), StartError>)
    requires id in pool.entries
    modifies pool
    ensures r.Ok? <==> AllStart(steps, detached)
    ensures r.Ok? ==> pool.entries == old(pool.entries)[id := old(pool.entries)[id].(pgids := Pgids(steps))]
    ensures forall groups :: steps != [] && Announces(steps, groups) ==> r.Ok? && pool.entries[id].pgids == groups
    ensures r.Err? && steps != [] ==> pool.entries == old(pool.entries)
    ensures r.Err? && steps == [] ==> pool.entries == old(pool.entries)[id := old(pool.entries)[id].(pgids := [])]
  {
    AnyAnnouncedAreRead(steps, detached);
    var pgids: seq<int> := [];
    for i := 0 to |steps|
      invariant pgids == Pgids(steps[..i])
      invariant forall j :: 0 <= j < i ==> Starts(steps[j], detached)
      invariant pool.entries == old(pool.entries)
    {
      assert steps[..i + 1][..i] == steps[..i];
      if steps[i].None? {
        return Err(SpawnFailed);
      }
      var pgid := PgidOf(steps[i]);
      if pgid.Some? {
        pgids := pgids + [pgid.value];
      }
      if !Starts(steps[i], detached) {
        return Err(NoHandshake);
      }
    }
    assert steps[..|steps|] == steps;
    pool.SetPgids(id, pgids);
    if steps == [] {
      return Err(EmptyPipeline);
    }
    return Ok(());
  }

  // ----- What is stored

  /** The last lines of a failed run's output, if there is any and the setting asks for some. */
  function FailureTail(out: string, tailLines: int): Option<string> {
    var lines := Split(out, '\n');
    if tailLines <= 0 || out == "" then None
    else Some(Join(if tailLines < |lines| then lines[|lines| - tailLines..] else lines, '\n'))
  }

  /** The kept tail is the end of the output, from a line start, with as many lines as asked for
      unless there are fewer. */
  lemma FailureTailIsTheEnd(out: string, tailLines: int) returns (before: string)
    requires out != "" && tailLines > 0
    ensures FailureTail(out, tailLines).Some?
    ensures var tail := FailureTail(out, tailLines).value;
            && out == before + tail && (before != "" ==> EndsWith(before, "\n"))
            && |Split(tail, '\n')| == if tailLines < |Split(out, '\n')| then tailLines else |Split(out, '\n')|
  {
    var lines := Split(out, '\n');
    JoinOfSplit(out, '\n');
    PartsHaveNoSeparator(out, '\n');
    before := "";
    if tailLines < |lines| {
      var k := |lines| - tailLines;
      assert lines == lines[..k] + lines[k..];
      JoinConcat(lines[..k], lines[k..], '\n');
      SplitOfJoin(lines[k..], '\n');
      before := Join(lines[..k], '\n') + "\n";
    }
  }

  /** `_apply_output_policy`. */
  function OutputPolicy(logged: bool, success: bool, out: string, tailLines: int): Option<string> {
    if !logged then Some(out)
    else if success then None
    else FailureTail(out, tailLines)
  }

  /** `_store_result`: only over RUNNING. */
  method StoreResult(repo: CommandStateRepository, id: string, result: Updater, ttl: int) returns (r: Result<bool, StoreError>)
    requires ttl > 0
    modifies repo`redis
    ensures var (o, cell) := UpdateCell(old(repo.CellAt(id)), IfRunning, result, repo.now + ttl);
            && repo.CellAt(id) == cell
            && r == if o.Missing? then Err(NotFound) else Ok(o.Saved?)
    ensures repo.OthersKept(id)
  {
    r := repo.UpdateIf(id, IfRunning, result, ttl);
  }

  // ----- The task

  datatype ScriptEnd = Exits(code: Option<int>, out: string) | Breaks | Hangs

  /** What the environment answers: does Redis take the initial save, the semaphore wait, the
      steps' handshakes, how long the script runs and how it ends, and the tail of the run log. */
  datatype TaskEnv = TaskEnv(
    saves: bool,
    wait: nat,
    steps: seq<Option<Handshake>>,
    runs: nat,
    end: ScriptEnd,
    logTail: string,
    tailLines: int)

  datatype TaskEnd = Stored | Raised | TimedOut

  datatype Progress = Progress(cell: Option<Cell>, now: int, end: TaskEnd, pgids: seq<int>)

  /** What is left of a cell at this instant. */
  function Alive(cell: Option<Cell>, now: int): Option<Cell> {
    if cell.Some? && cell.value.expiresAt <= now then None else cell
  }

  predicate NeedsBackfill(cfg: Config, code: Option<int>, out: string) {
    cfg.logged && code != Some(0) && out == ""
  }

  function ResultOf(cfg: Config, code: Option<int>, out: string, env: TaskEnv): Updater {
    var text := if NeedsBackfill(cfg, code, out) then env.logTail else out;
    FastResult(code, OutputPolicy(cfg.logged, code == Some(0), text, env.tailLines))
  }

  /** Storing what was collected. */
  function StoreAlone(cfg: Config, cell: Option<Cell>, now: int, pgids: seq<int>, env: TaskEnv): Progress
    requires env.end.Exits?
  {
    var (o, stored) := UpdateCell(cell, IfRunning, ResultOf(cfg, env.end.code, env.end.out, env), now + cfg.resultTtl);
    Progress(stored, now, if o.Missing? then Raised else Stored, pgids)
  }

  /** From the moment everything is spawned. */
  function CollectAlone(cfg: Config, cell: Option<Cell>, now: int, pgids: seq<int>, env: TaskEnv): Progress {
    var later := now + env.runs;
    var left := Alive(cell, later);
    match env.end
    case Breaks => Progress(left, later, Raised, pgids)
    case Hangs => Progress(left, later, TimedOut, pgids)
    case Exits(_, _) => StoreAlone(cfg, left, later, pgids, env)
  }

  /** The execution task on its own: the record it leaves, when, and how it ends. */
  function ExecAlone(cfg: Config, cell: Option<Cell>, now: int, env: TaskEnv): Progress {
    if !AllStart(env.steps, cfg.logged) then Progress(cell, now, Raised, [])
    else
      var pgids := Pgids(env.steps);
      if pgids != [] && cell.None? then Progress(None, now, Raised, pgids)
      else CollectAlone(cfg, WithPgids(cfg, cell, now, pgids), now, pgids, env)
  }

  /** The record once the process groups are in it. */
  function WithPgids(cfg: Config, cell: Option<Cell>, now: int, pgids: seq<int>): Option<Cell> {
    if pgids == [] then cell else UpdateCell(cell, Always, SetPgids(pgids), now + cfg.timeout + 30).1
  }

  const TIMED_OUT := "Command timed out and was killed."

  /** The record and the signals the whole background task leaves behind. */
  function TaskAlone(cfg: Config, cell: Option<Cell>, now: int, env: TaskEnv, kill: KillEnv): (Option<Cell>, seq<Signal>) {
    FinishAlone(cfg, ExecAlone(cfg, cell, now, env), kill)
  }

  /** What comes of it once the execution task has ended. */
  function FinishAlone(cfg: Config, p: Progress, kill: KillEnv): (Option<Cell>, seq<Signal>) {
    match p.end
    case Stored => (p.cell, [])
    case Raised => (UpdateCell(p.cell, IfRunning, Fail(FAULT, None, None), p.now + cfg.resultTtl).1, [])
    case TimedOut => KillAlone(p.cell, Some(Entry(cfg.killable, p.pgids)), false, TIMED_OUT, kill, p.now + cfg.resultTtl)
  }

  /** What a record saved at the launch is after the wait for the semaphore. */
  function Waited(cfg: Config, start: int, wait: nat): Option<Cell> {
    Alive(Some(Cell(InitialRecord(cfg), start + cfg.timeout + 30)), start + wait)
  }

  method ExecutionTask(repo: CommandStateRepository, pool: RunningPool, id: string, cfg: Config, env: TaskEnv)
    returns (end: TaskEnd)
    requires ValidConfig(cfg) && cfg.timeout + 30 > 0
    requires id in pool.entries && pool.entries[id].pgids == []
    modifies repo, pool
    ensures var p := ExecAlone(cfg, old(repo.CellAt(id)), old(repo.now), env);
            && end == p.end && repo.CellAt(id) == p.cell && repo.now == p.now
            && id in pool.entries && pool.entries[id] == old(pool.entries)[id].(pgids := p.pgids)
    ensures pool.entries - {id} == old(pool.entries) - {id}
  {
    var started := ExecutePipeline(pool, id, env.steps, cfg.logged);
    if started.Err? {
      return Raised;
    }
    var pgids := pool.entries[id].pgids;
    var recorded := RecordPgids(repo, id, cfg, pgids);
    if !recorded {
      return Raised;
    }
    end := CollectAndStore(repo, id, cfg, pgids, env);
  }

  /** The groups go into the record, if there are any. */
  method RecordPgids(repo: CommandStateRepository, id: string, cfg: Config, pgids: seq<int>) returns (ok: bool)
    requires cfg.timeout + 30 > 0
    modifies repo`redis
    ensures ok <==> pgids == [] || old(repo.CellAt(id)).Some?
    ensures repo.CellAt(id) == WithPgids(cfg, old(repo.CellAt(id)), repo.now, pgids)
    ensures ok && pgids != [] ==>
              repo.CellAt(id) == Some(Cell(old(repo.CellAt(id)).value.rec.(pgids := pgids), repo.now + cfg.timeout + 30))
  {
    if pgids == [] {
      return true;
    }
    var updated := repo.Update(id, SetPgids(pgids), cfg.timeout + 30);
    return updated.Ok?;
  }

  /** Its second half: the script runs, and its output is collected and stored. */
  method CollectAndStore(repo: CommandStateRepository, id: string, cfg: Config, ghost pgids: seq<int>, env: TaskEnv)
    returns (end: TaskEnd)
    requires ValidConfig(cfg)
    modifies repo
    ensures var p := CollectAlone(cfg, old(repo.CellAt(id)), old(repo.now), pgids, env);
            end == p.end && repo.CellAt(id) == p.cell && repo.now == p.now
  {
    repo.Pass(env.runs);
    if env.end.Breaks? {
      return Raised;
    }
    if env.end.Hangs? {
      return TimedOut;
    }
    var code, output := env.end.code, env.end.out;
    if cfg.logged && code != Some(0) && output == "" {
      var backfill := repo.Get(id);
      if backfill.Err? {
        return Raised;
      }
      output := env.logTail;
    }
    var stored := OutputPolicy(cfg.logged, code == Some(0), output, env.tailLines);
    var saved := StoreResult(repo, id, FastResult(code, stored), cfg.resultTtl);
    return if saved.Err? then Raised else Stored;
  }

  /** `_timeout_wrapper`, from the semaphore to `finally`. */
  method TimeoutWrapper(repo: CommandStateRepository, pool: RunningPool, conn: Connection, id: string, cfg: Config,
                        env: TaskEnv, kill: KillEnv)
    requires ValidConfig(cfg) && cfg.timeout + 30 > 0
    requires id in pool.entries && pool.entries[id] == Entry(cfg.killable, [])
    modifies repo, pool, conn
    ensures var alone := TaskAlone(cfg, old(repo.CellAt(id)), old(repo.now), env, kill);
            repo.CellAt(id) == alone.0 && conn.sent == old(conn.sent) + alone.1
    ensures pool.entries == old(pool.entries) - {id}
    ensures conn.closes == old(conn.closes) + 1
  {
    var end := ExecutionTask(repo, pool, id, cfg, env);
    if end.TimedOut? {
      KillCommand(repo, pool, conn, id, TIMED_OUT, false, kill, cfg.resultTtl);
    } else {
      if end.Raised? {
        var stored := StoreResult(repo, id, Fail(FAULT, None, None), cfg.resultTtl);
      }
      assert conn.sent + [] == conn.sent;
    }
    conn.Close();
    pool.Remove(id);
  }

  /** `_handle_async_execution` and the task it starts. If the initial save fails, for its expiry or
      because Redis does, there is no task, and nothing takes the pool entry out again or closes
      the connection. */
  method HandleAsyncExecution(repo: CommandStateRepository, pool: RunningPool, conn: Connection, id: string, cfg: Config,
                              env: TaskEnv, kill: KillEnv)
    returns (launched: bool)
    requires ValidConfig(cfg) && id !in pool.entries
    modifies repo, pool, conn
    ensures launched <==> env.saves && cfg.timeout + 30 > 0
    ensures launched ==>
              var now := old(repo.now);
              var alone := TaskAlone(cfg, Waited(cfg, now, env.wait), now + env.wait, env, kill);
              && repo.CellAt(id) == alone.0 && conn.sent == old(conn.sent) + alone.1
              && pool.entries == old(pool.entries) && conn.closes == old(conn.closes) + 1
    ensures !launched ==>
              && repo.redis == old(repo.redis)
              && pool.entries == old(pool.entries)[id := Entry(cfg.killable, [])] && conn.closes == old(conn.closes)
  {
    pool.Add(id, Entry(cfg.killable, []));
    if !env.saves {
      return false;
    }
    var saved := repo.Save(id, InitialRecord(cfg), cfg.timeout + 30);
    if saved.Err? {
      return false;
    }
    repo.Pass(env.wait);
    assert repo.CellAt(id) == Waited(cfg, old(repo.now), env.wait);
    TimeoutWrapper(repo, pool, conn, id, cfg, env, kill);
    return true;
  }

  // ----- The same launch as steps of the protocol

  function RunRemote(s: Sys, remote: seq<RemoteAction>): Sys {
    if remote == [] then s else RemoteStep(RunRemote(s, remote[..|remote| - 1]), remote[|remote| - 1])
  }

  /** From the semaphore to the end of spawning and the process-group write. */
  function SpawnSteps(s: Sys, env: TaskEnv): Sys {
    var started := RemoteStep(s, Start);
    if AllStart(env.steps, s.cfg.logged) then WriteStep(TaskStep(started, Spawned(Pgids(env.steps))), TaskWriter)
    else TaskStep(started, Fault)
  }

  /** The script at work, and how it ends. */
  function CollectSteps(s: Sys, env: TaskEnv, remote: seq<RemoteAction>): Sys {
    var ran := RunRemote(TickStep(s, env.runs), remote);
    match env.end
    case Breaks => TaskStep(ran, Fault)
    case Hangs => TaskStep(ran, TimeOut(0))
    case Exits(code, out) =>
      var collected := TaskStep(ran, Collect(code, out, FailureTail(out, env.tailLines)));
      var filled := TaskStep(collected, Backfill(FailureTail(env.logTail, env.tailLines)));
      if filled.pod.task.Storing? then WriteStep(filled, TaskWriter) else filled
  }

  function ExecSteps(s: Sys, env: TaskEnv, remote: seq<RemoteAction>): Sys {
    var spawned := SpawnSteps(s, env);
    if spawned.pod.task.Collecting? then CollectSteps(spawned, env, remote) else spawned
  }

  function FinishSteps(s: Sys, kill: KillEnv): Sys {
    if s.pod.task.StoringFault? then TaskStep(WriteStep(s, TaskWriter), CleanUp)
    else if s.pod.task.TimingOut? then TaskStep(TaskStep(CallAlone(s, 0, false, true, TIMED_OUT, kill), Resume), CleanUp)
    else TaskStep(s, CleanUp)
  }

  /** The whole task from the semaphore on. */
  function TaskSteps(s: Sys, env: TaskEnv, remote: seq<RemoteAction>, kill: KillEnv): Sys {
    FinishSteps(ExecSteps(s, env, remote), kill)
  }

  /** The task holds the semaphore since now and nobody else has acted yet. */
  predicate Fresh(s: Sys, task: Task) {
    && s.pod.task == task && s.pod.pooled && s.pod.closes == 0
    && s.killers == map[] && s.past.signals == []
  }

  /** The launch up to the semaphore is a run of the protocol. */
  lemma QueueReaches(cfg: Config, start: int, wait: nat) returns (run: seq<Action>, s: Sys)
    requires cfg.timeout + 30 > 0
    ensures s == Exec(Init(cfg, start), run)
    ensures Fresh(s, Spawning) && s.pod.pgids == [] && s.script.phase == Idle && s.cfg == cfg
    ensures s.now == start + wait == s.pod.startedAt && s.cell == Waited(cfg, start, wait)
  {
    run := [Do(PoolAdd), Do(SaveInitial(true)), Tick(wait), Do(Acquire)];
    s := Exec(Init(cfg, start), run);
    ExecFour(Init(cfg, start), Do(PoolAdd), Do(SaveInitial(true)), Tick(wait), Do(Acquire));
  }

  lemma SpawnReaches(s: Sys, env: TaskEnv)
    requires Fresh(s, Spawning) && s.pod.pgids == [] && s.script.phase == Idle
    ensures var n := SpawnSteps(s, env);
            var pgids := Pgids(env.steps);
            && n.cfg == s.cfg && n.now == s.now && n.pod.startedAt == s.pod.startedAt
            && (if AllStart(env.steps, s.cfg.logged) && (pgids != [] ==> s.cell.Some?) then
                  && Fresh(n, Collecting) && n.pod.pgids == pgids
                  && n.cell == WithPgids(s.cfg, s.cell, s.now, pgids)
                else Fresh(n, StoringFault) && n.cell == s.cell)
  {
    var started := RemoteStep(s, Start);
    assert started == s.(script := started.script) && started.script.phase == Working;
  }

  lemma {:induction false} RemoteLeavesRest(s: Sys, remote: seq<RemoteAction>)
    requires !s.pod.task.Spawning?
    ensures RunRemote(s, remote) == s.(script := RunRemote(s, remote).script)
  {
    if remote != [] {
      RemoteLeavesRest(s, remote[..|remote| - 1]);
    }
  }

  /** The script ends in a way the channel can report, or not before the deadline. */
  predicate Plausible(s: Sys, env: TaskEnv, remote: seq<RemoteAction>) {
    match env.end
    case Breaks => true
    case Hangs => s.now + env.runs >= s.pod.startedAt + s.cfg.timeout
    case Exits(code, _) => CanCollect(RunRemote(TickStep(s, env.runs), remote).script, code)
  }

  predicate PlausibleOnceSpawned(s: Sys, env: TaskEnv, remote: seq<RemoteAction>) {
    SpawnSteps(s, env).pod.task.Collecting? ==> Plausible(SpawnSteps(s, env), env, remote)
  }

  /** The task has stopped executing, in the state the task on its own would be in. */
  predicate EndsAs(n: Sys, cfg: Config, p: Progress) {
    && n.cfg == cfg && n.cell == p.cell && n.now == p.now
    && n.pod.pooled && n.pod.closes == 0 && n.past.signals == []
    && match p.end
       case Stored => n.pod.task == Cleaning
       case Raised => n.pod.task == StoringFault
       case TimedOut => n.pod.task == TimingOut(0) && n.pod.pgids == p.pgids
                        && n.killers == map[0 := Killer(false, true, TIMED_OUT, Guarding)]
  }

  /** The output policy, on what was collected or else on the log's tail, is what the protocol stores. */
  lemma StoresByPolicy(s: Sys, env: TaskEnv)
    requires Fresh(s, Collecting) && env.end.Exits? && CanCollect(s.script, env.end.code)
    ensures var code, out := env.end.code, env.end.out;
            var collected := TaskStep(s, Collect(code, out, FailureTail(out, env.tailLines)));
            var n := TaskStep(collected, Backfill(FailureTail(env.logTail, env.tailLines)));
            && n.cfg == s.cfg && n.cell == s.cell && n.now == s.now
            && n.pod.pooled && n.pod.closes == 0 && n.past.signals == []
            && n.pod.task == (if NeedsBackfill(s.cfg, code, out) && s.cell.None? then StoringFault
                              else Storing(ResultOf(s.cfg, code, out, env)))
  {
    var code, out := env.end.code, env.end.out;
    var collected := TaskStep(s, Collect(code, out, FailureTail(out, env.tailLines)));
    assert collected.pod.task == AfterCollect(s.cfg, code, out, FailureTail(out, env.tailLines));
  }

  lemma StoreReaches(s: Sys, result: Updater)
    requires s.pod.task == Storing(result) && s.pod.pooled && s.pod.closes == 0 && s.past.signals == []
    ensures var n := WriteStep(s, TaskWriter);
            var (o, cell) := UpdateCell(s.cell, IfRunning, result, s.now + s.cfg.resultTtl);
            && n.cfg == s.cfg && n.now == s.now && n.cell == cell
            && n.pod.pooled && n.pod.closes == 0 && n.past.signals == []
            && n.pod.task == if o.Missing? then StoringFault else Cleaning
  {
  }

  lemma ExitReaches(s: Sys, env: TaskEnv)
    requires Fresh(s, Collecting) && env.end.Exits? && CanCollect(s.script, env.end.code)
    ensures var code, out := env.end.code, env.end.out;
            var collected := TaskStep(s, Collect(code, out, FailureTail(out, env.tailLines)));
            var filled := TaskStep(collected, Backfill(FailureTail(env.logTail, env.tailLines)));
            var n := if filled.pod.task.Storing? then WriteStep(filled, TaskWriter) else filled;
            EndsAs(n, s.cfg, StoreAlone(s.cfg, s.cell, s.now, s.pod.pgids, env))
  {
    var code, out := env.end.code, env.end.out;
    var collected := TaskStep(s, Collect(code, out, FailureTail(out, env.tailLines)));
    var filled := TaskStep(collected, Backfill(FailureTail(env.logTail, env.tailLines)));
    StoresByPolicy(s, env);
    if filled.pod.task.Storing? {
      StoreReaches(filled, ResultOf(s.cfg, code, out, env));
    }
  }

  lemma BreakReaches(s: Sys)
    requires Fresh(s, Collecting)
    ensures EndsAs(TaskStep(s, Fault), s.cfg, Progress(s.cell, s.now, Raised, s.pod.pgids))
  {
  }

  lemma HangReaches(s: Sys)
    requires Fresh(s, Collecting) && s.now >= s.pod.startedAt + s.cfg.timeout
    ensures EndsAs(TaskStep(s, TimeOut(0)), s.cfg, Progress(s.cell, s.now, TimedOut, s.pod.pgids))
  {
  }

  lemma CollectReaches(s: Sys, env: TaskEnv, remote: seq<RemoteAction>)
    requires Fresh(s, Collecting) && Plausible(s, env, remote)
    ensures EndsAs(CollectSteps(s, env, remote), s.cfg, CollectAlone(s.cfg, s.cell, s.now, s.pod.pgids, env))
  {
    RanReaches(s, env.runs, remote);
    var ran := RunRemote(TickStep(s, env.runs), remote);
    match env.end
    case Exits(_, _) => ExitReaches(ran, env);
    case Breaks => BreakReaches(ran);
    case Hangs => HangReaches(ran);
  }

  lemma RanReaches(s: Sys, runs: nat, remote: seq<RemoteAction>)
    requires Fresh(s, Collecting)
    ensures var ran := RunRemote(TickStep(s, runs), remote);
            && Fresh(ran, Collecting) && ran.pod == s.pod && ran.cfg == s.cfg
            && ran.now == s.now + runs && ran.cell == Alive(s.cell, s.now + runs)
  {
    RemoteLeavesRest(TickStep(s, runs), remote);
  }

  lemma ExecReaches(s: Sys, env: TaskEnv, remote: seq<RemoteAction>)
    requires Fresh(s, Spawning) && s.pod.pgids == [] && s.script.phase == Idle
    requires PlausibleOnceSpawned(s, env, remote)
    ensures EndsAs(ExecSteps(s, env, remote), s.cfg, ExecAlone(s.cfg, s.cell, s.now, env))
  {
    SpawnReaches(s, env);
    var spawned := SpawnSteps(s, env);
    if spawned.pod.task.Collecting? {
      CollectReaches(spawned, env, remote);
    }
  }

  predicate CleanedUp(n: Sys, alone: (Option<Cell>, seq<Signal>)) {
    && n.cell == alone.0 && n.past.signals == Stamp(0, alone.1)
    && n.pod.task == Ended && !n.pod.pooled && n.pod.closes == 1
  }

  lemma CleanUpReaches(s: Sys)
    requires s.pod.task == Cleaning && s.pod.pooled && s.pod.closes == 0
    ensures var n := TaskStep(s, CleanUp);
            n.cell == s.cell && n.past == s.past && n.pod.task == Ended && !n.pod.pooled && n.pod.closes == 1
  {
  }

  lemma FaultReaches(s: Sys)
    requires s.pod.task == StoringFault && s.pod.pooled && s.pod.closes == 0 && s.past.signals == []
    ensures CleanedUp(TaskStep(WriteStep(s, TaskWriter), CleanUp),
                      (UpdateCell(s.cell, IfRunning, Fail(FAULT, None, None), s.now + s.cfg.resultTtl).1, []))
  {
    var n := WriteStep(s, TaskWriter);
    assert n.cell == UpdateCell(s.cell, IfRunning, Fail(FAULT, None, None), s.now + s.cfg.resultTtl).1;
    CleanUpReaches(n);
    assert Stamp(0, []) == [];
  }

  lemma TimeoutReaches(s: Sys, kill: KillEnv)
    requires s.pod.task == TimingOut(0) && s.killers == map[0 := Killer(false, true, TIMED_OUT, Guarding)]
    requires s.pod.pooled && s.pod.closes == 0 && s.past.signals == []
    ensures CleanedUp(TaskStep(TaskStep(CallAlone(s, 0, false, true, TIMED_OUT, kill), Resume), CleanUp),
                      KillAlone(s.cell, Some(Entry(s.cfg.killable, s.pod.pgids)), false, TIMED_OUT, kill, s.now + s.cfg.resultTtl))
  {
    KillAloneIsProtocol(s, 0, false, true, TIMED_OUT, kill);
    ResumeReaches(CallAlone(s, 0, false, true, TIMED_OUT, kill));
    assert EntrySeen(s, true) == Some(Entry(s.cfg.killable, s.pod.pgids));
    var alone := KillAlone(s.cell, EntrySeen(s, true), false, TIMED_OUT, kill, s.now + s.cfg.resultTtl);
    assert [] + Stamp(0, alone.1) == Stamp(0, alone.1);
  }

  lemma ResumeReaches(s: Sys)
    requires s.pod.task == TimingOut(0) && s.pod.pooled && s.pod.closes == 0
    requires 0 in s.killers && s.killers[0].pc.Stopped?
    ensures var n := TaskStep(TaskStep(s, Resume), CleanUp);
            n.cell == s.cell && n.past == s.past && n.pod.task == Ended && !n.pod.pooled && n.pod.closes == 1
  {
    CleanUpReaches(TaskStep(s, Resume));
  }

  lemma FinishReaches(s: Sys, cfg: Config, p: Progress, kill: KillEnv)
    requires EndsAs(s, cfg, p)
    ensures CleanedUp(FinishSteps(s, kill), FinishAlone(cfg, p, kill))
  {
    match p.end
    case Stored => StoredReaches(s);
    case Raised => FaultReaches(s);
    case TimedOut => TimeoutReaches(s, kill);
  }

  lemma StoredReaches(s: Sys)
    requires s.pod.task == Cleaning && s.pod.pooled && s.pod.closes == 0 && s.past.signals == []
    ensures CleanedUp(TaskStep(s, CleanUp), (s.cell, []))
  {
    CleanUpReaches(s);
    assert Stamp(0, []) == [];
  }

  /** A task left alone from the semaphore on is the protocol's task left alone: same record, same
      signals, out of the pool, and its connection closed once. */
  lemma TaskAloneIsProtocol(s: Sys, env: TaskEnv, remote: seq<RemoteAction>, kill: KillEnv) returns (n: Sys)
    requires Fresh(s, Spawning) && s.pod.pgids == [] && s.script.phase == Idle
    requires PlausibleOnceSpawned(s, env, remote)
    ensures n == TaskSteps(s, env, remote, kill)
    ensures CleanedUp(n, TaskAlone(s.cfg, s.cell, s.now, env, kill))
  {
    n := TaskSteps(s, env, remote, kill);
    ExecReaches(s, env, remote);
    FinishReaches(ExecSteps(s, env, remote), s.cfg, ExecAlone(s.cfg, s.cell, s.now, env), kill);
  }

  /** So is a whole launch: the protocol has a run up to the semaphore, where the record is what the
      launch has waited with, and from there the task's steps leave the same. */
  lemma LaunchAloneIsProtocol(cfg: Config, start: int, env: TaskEnv, remote: seq<RemoteAction>, kill: KillEnv)
    returns (run: seq<Action>, s: Sys, n: Sys)
    requires cfg.timeout + 30 > 0
    ensures s == Exec(Init(cfg, start), run) && Fresh(s, Spawning) && s.cfg == cfg
    ensures s.now == start + env.wait && s.cell == Waited(cfg, start, env.wait)
    ensures PlausibleOnceSpawned(s, env, remote) ==>
              n == TaskSteps(s, env, remote, kill) && CleanedUp(n, TaskAlone(s.cfg, s.cell, s.now, env, kill))
  {
    run, s := QueueReaches(cfg, start, env.wait);
    n := s;
    if PlausibleOnceSpawned(s, env, remote) {
      n := TaskAloneIsProtocol(s, env, remote, kill);
    }
  }
}
