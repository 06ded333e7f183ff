/** The life of one Run as a transition system: the launching pod's task, any number of
    killers and pollers on any pods, the remote script, the clock and the stored record.

    Every choice the environment makes (timing, failures, exit codes, scheduling) is carried
    by the action, so `Step` is a function and a run of the system is a sequence of actions.
    An action that is not enabled leaves the state as it is. One repository `update` or
    `update_if` is one step here; module SplitStore takes it apart. */
module RunProtocol {
  import opened Wrappers
  import opened CommandDomain
  import opened CommandStore
  import opened ExitMarker
  import opened Decimal

  /** What is fixed when the Run is launched. */
  datatype Config = Config(
    timeout: int,
    resultTtl: int,
    killable: bool,
    logged: bool,
    contract: OutputContract,
    logPath: string)

  /** A whitelist entry that passed validation, and a result TTL Redis accepts. */
  predicate ValidConfig(c: Config) {
    && c.resultTtl > 0
    && (c.logged ==> c.logPath != "")
    && ValidateOutputFormat(c.contract, c.logged, false).Ok?
  }

  // ----- Actors

  /** Where the launching pod stands, from before `pool_add` to after `finally`. */
  datatype Task =
    | NotLaunched
    | Launching                          // in the pool, initial save pending
    | LaunchFailed                       // the initial save raised
    | Queued                             // waiting for the semaphore
    | Spawning                           // _execute_pipeline
    | WritingPgids
    | Collecting                         // _collect_output
    | Backfilling(code: Option<int>)     // reads the record before the log tail
    | Storing(result: Updater)           // _store_result
    | StoringFault                       // _store_result from the except branch
    | TimingOut(killer: nat)             // inside kill_command
    | Cleaning                           // finally
    | Ended
    | Crashed                            // the pod died

  /** Holding the semaphore, inside `wait_for`. */
  predicate Executing(t: Task) {
    t.Spawning? || t.WritingPgids? || t.Collecting? || t.Backfilling? || t.Storing?
  }

  datatype Stop =
    | Refused | Unknown | ConfigMissing | LostGate | GaveUp     // before the gate
    | Done | Vanished | Stranded                                // past the gate

  /** Where one call of `kill_command` stands. */
  datatype KillPc =
    | Guarding
    | CheckingConfig
    | Gating
    | Dispatching
    | Reading
    | Connecting(pgids: seq<int>)
    | Signalling(rest: seq<int>)         // mark_killed comes next once rest is empty
    | Stopped(why: Stop)

  datatype Killer = Killer(force: bool, onLauncher: bool, message: string, pc: KillPc)

  /** Has this call made the RUNNING to KILLING flip? */
  predicate PastGate(pc: KillPc) {
    || pc.Dispatching? || pc.Reading? || pc.Connecting? || pc.Signalling?
    || (pc.Stopped? && (pc.why.Done? || pc.why.Vanished? || pc.why.Stranded?))
  }

  datatype PollPc =
    | Fetching
    | ReadingMarker(seen: Record)
    | Healing(code: int, tail: Option<string>)
    | Rereading
    | Answered(reply: Option<Record>)

  /** The remote script: still working, in its EXIT trap, or gone (by itself or by a signal). */
  datatype Remote = Idle | Working | Trapping | Gone(byItself: bool)

  datatype Signal = Term(pgid: int) | Kill(pgid: int)

  /** The launching pod's side: its task, its pool entry and what it has collected. */
  datatype Pod = Pod(
    task: Task,
    pooled: bool,
    pgids: seq<int>,
    savedAt: int,
    startedAt: int,
    collected: Option<(Option<int>, string)>,
    closes: nat,
    removes: nat)

  /** The control node's side: the script and its exit-code sidecar. */
  datatype Script = Script(
    phase: Remote,
    exitCode: Option<nat>,
    tmpFile: Option<string>,
    exitFile: Option<string>)

  /** What has happened so far: who passed the gate, whether the record ever left RUNNING, how
      often KILLED was written, and every signal sent. No actor reads it. */
  datatype History = History(
    gate: Option<nat>,
    left: bool,
    killedWrites: nat,
    signals: seq<(nat, Signal)>)

  /** The whole state around one Run. */
  datatype Sys = Sys(
    cfg: Config,
    now: int,
    cell: Option<Cell>,
    pod: Pod,
    script: Script,
    killers: map<nat, Killer>,
    pollers: map<nat, PollPc>,
    past: History)

  function Init(cfg: Config, start: int): Sys {
    Sys(cfg, start, None,
        Pod(NotLaunched, false, [], start, start, None, 0, 0),
        Script(Idle, None, None, None),
        map[], map[],
        History(None, false, 0, []))
  }

  function StatusOf(s: Sys): Option<Status> {
    if s.cell.Some? then Some(s.cell.value.rec.status) else None
  }

  // ----- Repository writes

  datatype Writer = TaskWriter | KillWriter(k: nat) | PollWriter(p: nat)

  datatype Write = Write(cond: Condition, upd: Updater, ttl: int)

  function HealMessage(code: int): string {
    "Recovered from control_node marker: exit "
    + (if code < 0 then "-" + Print(-code) else Print(code)) + "."
  }

  /** What a poll that read this exit code writes. */
  function HealUpdate(code: int, tail: Option<string>): Updater {
    if code == 0 then Succeed(0, "") else Fail(HealMessage(code), Some(code), tail)
  }

  const FAULT := "Execution failed"

  /** The write this actor performs next, if it stands at one. */
  function WriteOf(s: Sys, w: Writer): Option<Write> {
    match w
    case TaskWriter => (
      match s.pod.task
      case WritingPgids => Some(Write(Always, SetPgids(s.pod.pgids), s.cfg.timeout + 30))
      case Storing(result) => Some(Write(IfRunning, result, s.cfg.resultTtl))
      case StoringFault => Some(Write(IfRunning, Fail(FAULT, None, None), s.cfg.resultTtl))
      case _ => None
    )
    case KillWriter(k) =>
      if k !in s.killers then None
      else if s.killers[k].pc.Gating? then
        Some(Write(IfRunning, ToKilling(s.killers[k].message), s.cfg.resultTtl))
      else if s.killers[k].pc == Signalling([]) then
        Some(Write(Always, ToKilled(s.killers[k].message), s.cfg.resultTtl))
      else None
    case PollWriter(p) =>
      if p in s.pollers && s.pollers[p].Healing? then
        Some(Write(IfInFlight, HealUpdate(s.pollers[p].code, s.pollers[p].tail), s.cfg.resultTtl))
      else None
  }

  function SetKillPc(s: Sys, k: nat, pc: KillPc): Sys
    requires k in s.killers
  {
    s.(killers := s.killers[k := s.killers[k].(pc := pc)])
  }

  /** The task moves on. */
  function TaskAfterWrite(s: Sys, o: Outcome): Sys {
    match s.pod.task
    case WritingPgids =>
      if o.Saved? then s.(pod := s.pod.(task := Collecting))
      else s.(pod := s.pod.(task := StoringFault))
    case Storing(_) =>
      if o.Missing? then s.(pod := s.pod.(task := StoringFault))
      else s.(pod := s.pod.(task := Cleaning), past := s.past.(left := s.past.left || o.Saved?))
    case _ => s.(pod := s.pod.(task := Cleaning), past := s.past.(left := s.past.left || o.Saved?))
  }

  function KillerAfterWrite(s: Sys, k: nat, o: Outcome): Sys
    requires k in s.killers
  {
    if s.killers[k].pc.Gating? then
      match o
      case Saved => SetKillPc(s, k, Dispatching).(past := s.past.(gate := Some(k), left := true))
      case Declined => SetKillPc(s, k, Stopped(LostGate))
      case Missing => SetKillPc(s, k, Stopped(Unknown))
    else if o.Saved? then
      SetKillPc(s, k, Stopped(Done)).(past := s.past.(killedWrites := s.past.killedWrites + 1))
    else
      SetKillPc(s, k, Stopped(Vanished))
  }

  function PollerAfterWrite(s: Sys, p: nat, o: Outcome): Sys {
    s.(pollers := s.pollers[p := if o.Missing? then Answered(None) else Rereading],
       past := s.past.(left := s.past.left || o.Saved?))
  }

  /** The actor moves on once its write has ended this way. */
  function AfterWrite(s: Sys, w: Writer, o: Outcome): Sys
    requires WriteOf(s, w).Some?
  {
    match w
    case TaskWriter => TaskAfterWrite(s, o)
    case KillWriter(k) => KillerAfterWrite(s, k, o)
    case PollWriter(p) => PollerAfterWrite(s, p, o)
  }

  /** One atomic repository write. */
  function WriteStep(s: Sys, w: Writer): Sys {
    match WriteOf(s, w)
    case None => s
    case Some(wr) =>
      var (o, cell) := UpdateCell(s.cell, wr.cond, wr.upd, s.now + wr.ttl);
      AfterWrite(s, w, o).(cell := cell)
  }

  // ----- The launching pod

  datatype TaskAction =
    | PoolAdd
    | SaveInitial(ok: bool)
    | Acquire
    | Spawned(pgids: seq<int>)
    | Collect(code: Option<int>, out: string, tail: Option<string>)
    | Backfill(tail: Option<string>)
    | Fault                              // any exception raised while executing
    | StoreFails                         // _store_result raises in the except branch
    | TimeOut(k: nat)
    | Resume
    | CleanUp
    | Crash

  function InitialRecord(c: Config): Record {
    Record(Running, None, None, None, if c.logged then Some(c.logPath) else None, c.contract, c.killable, [])
  }

  /** `_apply_output_policy`; `tail` is the failure tail a logged Run keeps. */
  function StoredOutput(logged: bool, success: bool, out: string, tail: Option<string>): Option<string> {
    if !logged then Some(out) else if success then None else tail
  }

  /** The response built from a collected exit code, as `_store_result` writes it. */
  function FastResult(code: Option<int>, stored: Option<string>): Updater {
    if code == Some(0) then Succeed(0, if stored.Some? then stored.value else "")
    else Fail("", code, stored)
  }

  predicate Faithful(sc: Script, code: Option<int>) {
    sc.phase == Gone(true) && sc.exitCode.Some? && code == Some(sc.exitCode.value)
  }

  /** Exit statuses the channel can report: the script's own, one caused by a signal, or none. */
  predicate CanCollect(sc: Script, code: Option<int>) {
    code.None? || Faithful(sc, code) || (sc.phase == Gone(false) && code != Some(0))
  }

  /** What the task does after draining the process: store, or first read the record for a log tail. */
  function AfterCollect(cfg: Config, code: Option<int>, out: string, tail: Option<string>): Task {
    if cfg.logged && code != Some(0) && out == "" then Backfilling(code)
    else Storing(FastResult(code, StoredOutput(cfg.logged, code == Some(0), out, tail)))
  }

  function TaskStep(s: Sys, a: TaskAction): Sys {
    var pod := s.pod;
    match a
    case PoolAdd =>
      if pod.task.NotLaunched? then s.(pod := pod.(task := Launching, pooled := true)) else s
    case SaveInitial(ok) =>
      if !pod.task.Launching? then s
      else if ok && s.cfg.timeout + 30 > 0 then
        s.(pod := pod.(task := Queued, savedAt := s.now),
           cell := Some(Cell(InitialRecord(s.cfg), s.now + s.cfg.timeout + 30)))
      else s.(pod := pod.(task := LaunchFailed))
    case Acquire =>
      if pod.task.Queued? then s.(pod := pod.(task := Spawning, startedAt := s.now)) else s
    case Spawned(pgids) =>
      if pod.task.Spawning? && !s.script.phase.Idle? then
        s.(pod := pod.(task := if pgids == [] then Collecting else WritingPgids, pgids := pgids))
      else s
    case Collect(code, out, tail) =>
      if pod.task.Collecting? && CanCollect(s.script, code) then
        s.(pod := pod.(task := AfterCollect(s.cfg, code, out, tail), collected := Some((code, out))))
      else s
    case Backfill(tail) =>
      if !pod.task.Backfilling? then s
      else if s.cell.None? then
        s.(pod := pod.(task := StoringFault))
      else s.(pod := pod.(task := Storing(FastResult(pod.task.code, tail))))
    case Fault =>
      if Executing(pod.task) then
        s.(pod := pod.(task := StoringFault))
      else s
    case StoreFails =>
      if pod.task.StoringFault? then s.(pod := pod.(task := Cleaning)) else s
    case TimeOut(k) =>
      if Executing(pod.task) && s.now >= pod.startedAt + s.cfg.timeout && k !in s.killers then
        s.(pod := pod.(task := TimingOut(k)),
           killers := s.killers[k := Killer(false, true, "Command timed out and was killed.", Guarding)])
      else s
    case Resume =>
      if pod.task.TimingOut? && pod.task.killer in s.killers && s.killers[pod.task.killer].pc.Stopped? then
        s.(pod := pod.(task := Cleaning))
      else s
    case CleanUp =>
      if pod.task.Cleaning? then
        s.(pod := pod.(task := Ended, pooled := false, closes := pod.closes + 1, removes := pod.removes + 1))
      else s
    case Crash =>
      if pod.task.NotLaunched? || pod.task.Ended? then s
      else s.(pod := pod.(task := Crashed, pooled := false))
  }

  // ----- Killers

  datatype Delivery = Dropped | Soft | Hard

  datatype KillAction =
    | Begin(force: bool, onLauncher: bool, message: string)
    | Guard
    | CheckConfig(found: bool)
    | Dispatch
    | Read(configFound: bool)
    | Connect(ok: bool)
    | SignalNext(how: Delivery)
    | Abandon                            // the killing pod died or an uncaught error escaped

  /** Does `pool_get` find the entry for this caller? */
  predicate SeesEntry(s: Sys, kl: Killer) {
    kl.onLauncher && s.pod.pooled
  }

  function Sent(pgid: int, how: Delivery): seq<Signal> {
    match how
    case Dropped => []
    case Soft => [Term(pgid)]
    case Hard => [Term(pgid), Kill(pgid)]
  }

  function Stamp(k: nat, sigs: seq<Signal>): seq<(nat, Signal)> {
    seq(|sigs|, i requires 0 <= i < |sigs| => (k, sigs[i]))
  }

  /** Where a call of `kill_command` goes next; repository writes and signals are not among these. */
  function NextKillPc(s: Sys, kl: Killer, a: KillAction): KillPc {
    match (kl.pc, a)
    case (Guarding, Guard) =>
      if kl.force then CheckingConfig
      else if SeesEntry(s, kl) then if s.cfg.killable then CheckingConfig else Stopped(Refused)
      else if s.cell.None? then Stopped(Unknown)
      else if s.cell.value.rec.killable then CheckingConfig else Stopped(Refused)
    case (CheckingConfig, CheckConfig(found)) =>
      if SeesEntry(s, kl) || s.cell.None? || found then Gating else Stopped(ConfigMissing)
    case (Dispatching, Dispatch) =>
      if SeesEntry(s, kl) then Signalling(s.pod.pgids) else Reading
    case (Reading, Read(configFound)) =>
      if s.cell.None? then Stopped(Vanished)
      else if s.cell.value.rec.pgids == [] then Signalling([])
      else if configFound then Connecting(s.cell.value.rec.pgids)
      else Stopped(Stranded)
    case (Connecting(pgids), Connect(ok)) =>
      if ok then Signalling(pgids) else Stopped(Stranded)
    case (_, Abandon) =>
      if kl.pc.Stopped? then kl.pc else Stopped(if PastGate(kl.pc) then Stranded else GaveUp)
    case _ => kl.pc
  }

  function KillStep(s: Sys, k: nat, a: KillAction): Sys {
    if a.Begin? then
      if k in s.killers then s
      else s.(killers := s.killers[k := Killer(a.force, a.onLauncher, a.message, Guarding)])
    else if k !in s.killers then s
    else if a.SignalNext? then
      var pc := s.killers[k].pc;
      if pc.Signalling? && pc.rest != [] then
        SetKillPc(s, k, Signalling(pc.rest[1..]))
        .(past := s.past.(signals := s.past.signals + Stamp(k, Sent(pc.rest[0], a.how))))
      else s
    else SetKillPc(s, k, NextKillPc(s, s.killers[k], a))
  }

  // ----- Pollers

  datatype PollAction =
    | BeginPoll
    | Fetch
    | LookAtMarker(reachable: bool, tail: Option<string>)
    | Reread

  /** Is a heal attempted for this record? */
  predicate Healable(r: Record) {
    (r.status.Running? || r.status.Killing?) && r.runLogPath.Some? && r.runLogPath.value != ""
  }

  function Reply(cell: Option<Cell>): Option<Record> {
    if cell.Some? then Some(cell.value.rec) else None
  }

  function NextPollPc(s: Sys, pc: PollPc, a: PollAction): PollPc {
    match (pc, a)
    case (Fetching, Fetch) =>
      if s.cell.Some? && Healable(s.cell.value.rec) then ReadingMarker(s.cell.value.rec)
      else Answered(Reply(s.cell))
    case (ReadingMarker(seen), LookAtMarker(reachable, tail)) =>
      var code := if reachable then ReadMarker(s.script.exitFile) else None;
      if code.None? then Answered(Some(seen))
      else Healing(code.value, if code.value == 0 then None else tail)
    case (Rereading, Reread) => Answered(Reply(s.cell))
    case _ => pc
  }

  function PollStep(s: Sys, p: nat, a: PollAction): Sys {
    if a.BeginPoll? then
      if p in s.pollers then s else s.(pollers := s.pollers[p := Fetching])
    else if p in s.pollers then
      s.(pollers := s.pollers[p := NextPollPc(s, s.pollers[p], a)])
    else s
  }

  // ----- The remote script

  datatype RemoteAction =
    | Start
    | Exit(code: nat)
    | WriteTmp(n: nat)                   // the first n bytes have reached the temporary file
    | Rename
    | Leave
    | Die                                // a signal, ours or another, ended it

  function ScriptStep(sc: Script, logged: bool, a: RemoteAction): Script {
    match a
    case Start =>
      if sc.phase.Idle? then sc.(phase := Working) else sc
    case Exit(code) =>
      if sc.phase.Working? then sc.(phase := Trapping, exitCode := Some(code)) else sc
    case WriteTmp(n) =>
      if sc.phase.Trapping? && logged && sc.exitCode.Some? && sc.exitFile.None?
         && n <= |MarkerText(sc.exitCode.value)|
      then sc.(tmpFile := Some(MarkerText(sc.exitCode.value)[..n]))
      else sc
    case Rename =>
      if sc.phase.Trapping? && sc.exitCode.Some? && sc.tmpFile == Some(MarkerText(sc.exitCode.value)) then
        sc.(exitFile := sc.tmpFile, tmpFile := None)
      else sc
    case Leave =>
      if sc.phase.Trapping? then sc.(phase := Gone(true)) else sc
    case Die =>
      if sc.phase.Working? || sc.phase.Trapping? then sc.(phase := Gone(false)) else sc
  }

  /** The script starts while the task spawns it and then runs on its own. */
  function RemoteStep(s: Sys, a: RemoteAction): Sys {
    if a.Start? && !s.pod.task.Spawning? then s
    else s.(script := ScriptStep(s.script, s.cfg.logged, a))
  }

  // ----- The system

  datatype Action =
    | Tick(d: nat)
    | Do(t: TaskAction)
    | ByKiller(k: nat, ka: KillAction)
    | ByPoller(p: nat, pa: PollAction)
    | OnRemote(r: RemoteAction)
    | Commit(w: Writer)

  /** Time passes; a cell whose expiry has come is dropped. */
  function TickStep(s: Sys, d: nat): Sys {
    var t := s.now + d;
    s.(now := t, cell := if s.cell.Some? && s.cell.value.expiresAt <= t then None else s.cell)
  }

  function Step(s: Sys, a: Action): Sys {
    match a
    case Tick(d) => TickStep(s, d)
    case Do(t) => TaskStep(s, t)
    case ByKiller(k, ka) => KillStep(s, k, ka)
    case ByPoller(p, pa) => PollStep(s, p, pa)
    case OnRemote(r) => RemoteStep(s, r)
    case Commit(w) => WriteStep(s, w)
  }

  /** The state after a whole sequence of actions. */
  function Exec(s: Sys, run: seq<Action>): Sys {
    if run == [] then s else Step(Exec(s, run[..|run| - 1]), run[|run| - 1])
  }

  lemma {:induction false} ExecFront(s: Sys, a: Action, rest: seq<Action>)
    ensures Exec(s, [a] + rest) == Exec(Step(s, a), rest)
  {
    if rest == [] {
      assert [a] + rest == [a] && [a][..0] == [];
      assert Exec(s, [a]) == Step(s, a);
    } else {
      ExecFront(s, a, rest[..|rest| - 1]);
      assert ([a] + rest)[..|rest|] == [a] + rest[..|rest| - 1];
    }
  }

  lemma {:induction false} ExecConcat(s: Sys, xs: seq<Action>, ys: seq<Action>)
    ensures Exec(s, xs + ys) == Exec(Exec(s, xs), ys)
  {
    if ys == [] {
      assert xs + ys == xs;
    } else {
      var front := ys[..|ys| - 1];
      ExecConcat(s, xs, front);
      assert (xs + ys)[..|xs + ys| - 1] == xs + front;
    }
  }

  lemma ExecOne(s: Sys, a: Action)
    ensures Exec(s, [a]) == Step(s, a)
  {
    assert [a] == [a] + [];
    ExecFront(s, a, []);
  }

  lemma ExecTwo(s: Sys, a: Action, b: Action)
    ensures Exec(s, [a, b]) == Step(Step(s, a), b)
  {
    assert [a, b] == [a] + [b] && [b] == [b] + [];
    ExecFront(s, a, [b]);
    ExecFront(Step(s, a), b, []);
  }

  lemma ExecThree(s: Sys, a: Action, b: Action, c: Action)
    ensures Exec(s, [a, b, c]) == Step(Step(Step(s, a), b), c)
  {
    assert [a, b, c] == [a] + [b, c];
    ExecFront(s, a, [b, c]);
    ExecTwo(Step(s, a), b, c);
  }

  lemma ExecFour(s: Sys, a: Action, b: Action, c: Action, d: Action)
    ensures Exec(s, [a, b, c, d]) == Step(Step(Step(Step(s, a), b), c), d)
  {
    assert [a, b, c, d] == [a] + [b, c, d];
    ExecFront(s, a, [b, c, d]);
    ExecThree(Step(s, a), b, c, d);
  }
}
