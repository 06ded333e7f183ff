/** What every step of the protocol keeps, from every actor. */
module RunInvariants {
  import opened Wrappers
  import opened CommandDomain
  import opened ExitMarker
  import opened RunProtocol

  // ----- The invariant, part by part

  predicate BeforeSave(t: Task) {
    t.NotLaunched? || t.Launching? || t.LaunchFailed?
  }

  /** No record and no script before the initial save; the pool entry and the connection follow the task. */
  predicate LaunchInv(s: Sys) {
    && (BeforeSave(s.pod.task) ==> s.cell.None? && !s.past.left && s.past.gate.None? && s.pod.collected.None?)
    && (BeforeSave(s.pod.task) || s.pod.task.Queued? ==> s.script.phase.Idle?)
    && (s.pod.pooled <==> !(s.pod.task.NotLaunched? || s.pod.task.Ended? || s.pod.task.Crashed?))
    && s.pod.closes == s.pod.removes == (if s.pod.task.Ended? then 1 else 0)
    && (s.pod.task.TimingOut? ==> s.pod.task.killer in s.killers)
  }

  /** The gate has one winner, and the record's status tells how far that winner came. */
  predicate GateInv(s: Sys) {
    && (forall k :: k in s.killers ==> (PastGate(s.killers[k].pc) <==> s.past.gate == Some(k)))
    && (s.past.gate.Some? ==> s.past.left && s.past.gate.value in s.killers)
    && (forall i :: 0 <= i < |s.past.signals| ==> s.past.gate == Some(s.past.signals[i].0))
    && (s.cell.Some? ==> (s.cell.value.rec.status.Running? <==> !s.past.left))
  }

  predicate WinnerInv(s: Sys) {
    && (s.past.gate.Some? ==> s.past.gate.value in s.killers)
    && s.past.killedWrites <= 1
    && (s.past.killedWrites == 1 <==> s.past.gate.Some? && s.killers[s.past.gate.value].pc == Stopped(Done))
    && (s.past.gate.Some? && s.killers[s.past.gate.value].pc == Stopped(Vanished) ==> s.cell.None?)
    && (s.cell.Some? ==>
          var r := s.cell.value.rec;
          && (r.status.Killing? ==> s.past.gate.Some?)
          && (r.status.Killed? <==> s.past.killedWrites == 1)
          && (r.status.Killing? || r.status.Killed? ==>
                s.past.gate.Some? && r.message == Some(s.killers[s.past.gate.value].message)))
  }

  /** The fields fixed at launch. */
  predicate IdentityInv(s: Sys) {
    s.cell.Some? ==>
      var r := s.cell.value.rec;
      && r.killable == s.cfg.killable
      && r.contract == s.cfg.contract
      && r.runLogPath == (if s.cfg.logged then Some(s.cfg.logPath) else None)
  }

  /** A call of `kill_command` that went beyond the killable guard. */
  predicate PastGuard(pc: KillPc) {
    !pc.Guarding? && pc != Stopped(Refused) && pc != Stopped(Unknown) && pc != Stopped(GaveUp)
  }

  predicate ForceInv(s: Sys) {
    !s.cfg.killable ==> forall k :: k in s.killers && PastGuard(s.killers[k].pc) ==> s.killers[k].force
  }

  /** The sidecar holds the script's exit code or does not exist. */
  predicate SidecarInv(logged: bool, sc: Script) {
    && (sc.phase.Idle? || sc.phase.Working? ==> sc.exitCode.None?)
    && (sc.phase.Trapping? || sc.phase == Gone(true) ==> sc.exitCode.Some?)
    && (sc.exitFile.Some? ==>
          logged && sc.exitCode.Some? && sc.exitFile.value == MarkerText(sc.exitCode.value))
    && (sc.tmpFile.Some? ==>
          && logged && sc.exitCode.Some? && sc.exitFile.None?
          && sc.tmpFile.value <= MarkerText(sc.exitCode.value))
  }

  /** A poller heals only logged Runs, and only to the script's own exit code. */
  predicate PollerInv(logged: bool, exitCode: Option<nat>, pc: PollPc) {
    match pc
    case ReadingMarker(_) => logged
    case Healing(code, _) => logged && exitCode.Some? && exitCode.value == code
    case _ => true
  }

  predicate MarkerInv(s: Sys) {
    && SidecarInv(s.cfg.logged, s.script)
    && forall p :: p in s.pollers ==> PollerInv(s.cfg.logged, s.script.exitCode, s.pollers[p])
  }

  /** Collecting lies behind the task for good. */
  predicate PastCollect(t: Task) {
    || t.Backfilling? || t.Storing? || t.StoringFault? || t.TimingOut? || t.Cleaning? || t.Ended? || t.Crashed?
  }

  /** This write reports the collected exit code and, for a Run that is not logged, its output. */
  predicate Carries(u: Updater, logged: bool, code: Option<int>, out: string) {
    match u
    case Succeed(c, o) => c == 0 && code == Some(0) && (!logged ==> o == out)
    case Fail(_, c, o) => c == code && code != Some(0) && (!logged ==> o == Some(out))
    case _ => false
  }

  /** What the task is about to store is what it collected. */
  predicate CollectedInv(s: Sys) {
    && (s.pod.collected.Some? ==> PastCollect(s.pod.task))
    && (s.pod.task.Backfilling? ==>
          && s.cfg.logged && s.pod.task.code != Some(0)
          && s.pod.collected.Some? && s.pod.collected.value.0 == s.pod.task.code)
    && (s.pod.task.Storing? ==>
          && s.pod.collected.Some?
          && Carries(s.pod.task.result, s.cfg.logged, s.pod.collected.value.0, s.pod.collected.value.1))
  }

  /** How a finished script's exit code reads as a status. */
  function Verdict(code: int): Status {
    if code == 0 then Success else Failed
  }

  predicate Reflects(r: Record, exitCode: Option<nat>) {
    exitCode.Some? && r.exitCode == Some(exitCode.value) && r.status == Verdict(exitCode.value)
  }

  /** The result fields a record in this status can have. */
  predicate ResultFields(r: Record) {
    match r.status
    case Running => r.exitCode.None? && r.output.None?
    case Killing => r.exitCode.None? && r.output.None?
    case Success => r.exitCode == Some(0) && r.output.Some?
    case Failed => r.exitCode != Some(0)
    case Killed => (r.exitCode.None? && r.output.None?) || r.exitCode.Some?
  }

  /** Where those fields come from. */
  predicate ResultSource(s: Sys, r: Record) {
    && ((r.status.Success? || r.status.Failed?) && s.past.gate.Some? ==> s.cfg.logged && Reflects(r, s.script.exitCode))
    && (r.status.Success? && !s.cfg.logged ==>
          r.output.Some? && s.pod.collected == Some((Some(0), r.output.value)))
    && (r.status.Failed? && !s.cfg.logged ==>
          if r.output.Some? then s.pod.collected == Some((r.exitCode, r.output.value)) else r.exitCode.None?)
    && (r.status.Killed? && r.exitCode.Some? ==>
          s.cfg.logged && s.script.exitCode.Some? && r.exitCode == Some(s.script.exitCode.value))
  }

  predicate ResultInv(s: Sys) {
    s.cell.Some? ==> ResultFields(s.cell.value.rec) && ResultSource(s, s.cell.value.rec)
  }

  predicate Inv(s: Sys) {
    && ValidConfig(s.cfg)
    && LaunchInv(s) && GateInv(s) && WinnerInv(s) && IdentityInv(s) && ForceInv(s)
    && MarkerInv(s) && CollectedInv(s) && ResultInv(s)
  }

  // ----- Every step keeps it: the launching pod

  lemma TaskKeepsLaunch(s: Sys, t: TaskAction)
    requires LaunchInv(s)
    ensures LaunchInv(TaskStep(s, t))
  {
  }

  lemma TaskKeepsGate(s: Sys, t: TaskAction)
    requires LaunchInv(s) && GateInv(s)
    ensures GateInv(TaskStep(s, t))
  {
  }

  lemma TaskKeepsWinner(s: Sys, t: TaskAction)
    requires LaunchInv(s) && GateInv(s) && WinnerInv(s)
    ensures WinnerInv(TaskStep(s, t))
  {
  }

  lemma TaskKeepsIdentity(s: Sys, t: TaskAction)
    requires IdentityInv(s) && ForceInv(s)
    ensures IdentityInv(TaskStep(s, t)) && ForceInv(TaskStep(s, t))
  {
  }

  lemma TaskKeepsMarker(s: Sys, t: TaskAction)
    requires MarkerInv(s)
    ensures MarkerInv(TaskStep(s, t))
  {
    assert TaskStep(s, t) == s.(pod := TaskStep(s, t).pod, cell := TaskStep(s, t).cell, killers := TaskStep(s, t).killers);
  }

  /** Storing and backfilling begin with what was collected. */
  lemma CollectKeepsCollected(s: Sys, t: TaskAction)
    requires CollectedInv(s) && (t.Collect? || t.Backfill?)
    ensures CollectedInv(TaskStep(s, t))
  {
  }

  lemma TaskKeepsCollected(s: Sys, t: TaskAction)
    requires LaunchInv(s) && CollectedInv(s)
    ensures CollectedInv(TaskStep(s, t))
  {
    if t.Collect? || t.Backfill? {
      CollectKeepsCollected(s, t);
    } else {
      assert TaskStep(s, t).pod.collected == s.pod.collected;
    }
  }

  lemma TaskKeepsResult(s: Sys, t: TaskAction)
    requires LaunchInv(s) && GateInv(s) && IdentityInv(s) && MarkerInv(s) && CollectedInv(s) && ResultInv(s)
    ensures ResultInv(TaskStep(s, t))
  {
  }

  lemma TaskKeeps(s: Sys, t: TaskAction)
    requires Inv(s)
    ensures Inv(TaskStep(s, t))
  {
    TaskKeepsLaunch(s, t);
    TaskKeepsGate(s, t);
    TaskKeepsWinner(s, t);
    TaskKeepsIdentity(s, t);
    TaskKeepsMarker(s, t);
    TaskKeepsCollected(s, t);
    TaskKeepsResult(s, t);
  }

  lemma TaskWriteKeepsLaunch(s: Sys)
    requires LaunchInv(s) && IdentityInv(s) && ForceInv(s)
    ensures var n := WriteStep(s, TaskWriter); LaunchInv(n) && IdentityInv(n) && ForceInv(n)
  {
  }

  lemma TaskWriteKeepsGate(s: Sys)
    requires LaunchInv(s) && GateInv(s) && CollectedInv(s)
    ensures GateInv(WriteStep(s, TaskWriter))
  {
  }

  lemma TaskWriteKeepsWinner(s: Sys)
    requires LaunchInv(s) && GateInv(s) && WinnerInv(s) && CollectedInv(s)
    ensures WinnerInv(WriteStep(s, TaskWriter))
  {
  }

  lemma TaskWriteKeepsCollected(s: Sys)
    requires LaunchInv(s) && IdentityInv(s) && MarkerInv(s) && CollectedInv(s)
    ensures MarkerInv(WriteStep(s, TaskWriter)) && CollectedInv(WriteStep(s, TaskWriter))
  {
  }

  lemma TaskWriteKeepsResult(s: Sys)
    requires GateInv(s) && CollectedInv(s) && ResultInv(s)
    ensures ResultInv(WriteStep(s, TaskWriter))
  {
    if s.pod.task.Storing? {
      if s.cell.Some? && s.cell.value.rec.status.Running? {
        assert s.past.gate.None?;
      }
    }
  }

  lemma TaskWriteKeeps(s: Sys)
    requires Inv(s)
    ensures Inv(WriteStep(s, TaskWriter))
  {
    TaskWriteKeepsLaunch(s);
    TaskWriteKeepsGate(s);
    TaskWriteKeepsWinner(s);
    TaskWriteKeepsCollected(s);
    TaskWriteKeepsResult(s);
  }

  // ----- Killers

  lemma KillKeepsGate(s: Sys, k: nat, ka: KillAction)
    requires GateInv(s)
    ensures GateInv(KillStep(s, k, ka))
  {
    if k in s.killers && !ka.Begin? && !ka.SignalNext? {
      assert PastGate(NextKillPc(s, s.killers[k], ka)) <==> PastGate(s.killers[k].pc);
    }
  }

  lemma KillKeepsWinner(s: Sys, k: nat, ka: KillAction)
    requires GateInv(s) && WinnerInv(s)
    ensures WinnerInv(KillStep(s, k, ka))
  {
  }

  lemma KillKeepsForce(s: Sys, k: nat, ka: KillAction)
    requires IdentityInv(s) && ForceInv(s)
    ensures IdentityInv(KillStep(s, k, ka)) && ForceInv(KillStep(s, k, ka))
  {
  }

  lemma KillKeepsRest(s: Sys, k: nat, ka: KillAction)
    requires LaunchInv(s) && MarkerInv(s) && CollectedInv(s) && ResultInv(s)
    ensures var n := KillStep(s, k, ka); LaunchInv(n) && MarkerInv(n) && CollectedInv(n) && ResultInv(n)
  {
  }

  lemma KillKeeps(s: Sys, k: nat, ka: KillAction)
    requires Inv(s)
    ensures Inv(KillStep(s, k, ka))
  {
    KillKeepsGate(s, k, ka);
    KillKeepsWinner(s, k, ka);
    KillKeepsForce(s, k, ka);
    KillKeepsRest(s, k, ka);
  }

  lemma KillWriteKeepsGate(s: Sys, k: nat)
    requires LaunchInv(s) && GateInv(s)
    ensures GateInv(WriteStep(s, KillWriter(k)))
  {
    if k in s.killers && s.killers[k].pc.Gating? && s.cell.Some? && s.cell.value.rec.status.Running? {
      assert s.past.gate.None?;
    }
  }

  lemma KillWriteKeepsWinner(s: Sys, k: nat)
    requires LaunchInv(s) && GateInv(s) && WinnerInv(s)
    ensures WinnerInv(WriteStep(s, KillWriter(k)))
  {
  }

  lemma KillWriteKeepsIdentity(s: Sys, k: nat)
    requires LaunchInv(s) && IdentityInv(s) && ForceInv(s) && MarkerInv(s)
    ensures var n := WriteStep(s, KillWriter(k)); LaunchInv(n) && IdentityInv(n) && ForceInv(n) && MarkerInv(n)
  {
  }

  lemma KillWriteKeepsResult(s: Sys, k: nat)
    requires GateInv(s) && CollectedInv(s) && ResultInv(s)
    ensures CollectedInv(WriteStep(s, KillWriter(k))) && ResultInv(WriteStep(s, KillWriter(k)))
  {
  }

  lemma KillWriteKeeps(s: Sys, k: nat)
    requires Inv(s)
    ensures Inv(WriteStep(s, KillWriter(k)))
  {
    KillWriteKeepsGate(s, k);
    KillWriteKeepsWinner(s, k);
    KillWriteKeepsIdentity(s, k);
    KillWriteKeepsResult(s, k);
  }

  // ----- Pollers

  lemma PollKeepsMarker(s: Sys, p: nat, pa: PollAction)
    requires IdentityInv(s) && MarkerInv(s)
    ensures MarkerInv(PollStep(s, p, pa))
  {
    if s.script.exitCode.Some? {
      MarkerRoundTrip(s.script.exitCode.value);
    }
  }

  lemma PollKeeps(s: Sys, p: nat, pa: PollAction)
    requires Inv(s)
    ensures Inv(PollStep(s, p, pa))
  {
    PollKeepsMarker(s, p, pa);
  }

  lemma PollWriteKeepsGate(s: Sys, p: nat)
    requires LaunchInv(s) && GateInv(s) && WinnerInv(s)
    ensures GateInv(WriteStep(s, PollWriter(p))) && WinnerInv(WriteStep(s, PollWriter(p)))
  {
  }

  lemma PollWriteKeepsIdentity(s: Sys, p: nat)
    requires LaunchInv(s) && IdentityInv(s) && ForceInv(s)
    ensures var n := WriteStep(s, PollWriter(p)); LaunchInv(n) && IdentityInv(n) && ForceInv(n)
  {
  }

  lemma PollWriteKeepsResult(s: Sys, p: nat)
    requires GateInv(s) && MarkerInv(s) && CollectedInv(s) && ResultInv(s)
    ensures var n := WriteStep(s, PollWriter(p)); MarkerInv(n) && CollectedInv(n) && ResultInv(n)
  {
  }

  lemma PollWriteKeeps(s: Sys, p: nat)
    requires Inv(s)
    ensures Inv(WriteStep(s, PollWriter(p)))
  {
    PollWriteKeepsGate(s, p);
    PollWriteKeepsIdentity(s, p);
    PollWriteKeepsResult(s, p);
  }

  // ----- The script and the clock

  lemma RemoteKeeps(s: Sys, ra: RemoteAction)
    requires Inv(s)
    ensures Inv(RemoteStep(s, ra))
  {
    assert SidecarInv(s.cfg.logged, RemoteStep(s, ra).script);
  }

  lemma TickKeeps(s: Sys, d: nat)
    requires Inv(s)
    ensures Inv(TickStep(s, d))
  {
  }

  // ----- All of it

  lemma StepKeeps(s: Sys, a: Action)
    requires Inv(s)
    ensures Inv(Step(s, a))
  {
    match a
    case Tick(d) => TickKeeps(s, d);
    case Do(t) => TaskKeeps(s, t);
    case ByKiller(k, ka) => KillKeeps(s, k, ka);
    case ByPoller(p, pa) => PollKeeps(s, p, pa);
    case OnRemote(r) => RemoteKeeps(s, r);
    case Commit(w) =>
      match w
      case TaskWriter => TaskWriteKeeps(s);
      case KillWriter(k) => KillWriteKeeps(s, k);
      case PollWriter(p) => PollWriteKeeps(s, p);
  }

  /** Every state of every run satisfies the invariant. */
  lemma {:induction false} Reachable(cfg: Config, start: int, run: seq<Action>)
    requires ValidConfig(cfg)
    ensures Inv(Exec(Init(cfg, start), run))
  {
    if run != [] {
      Reachable(cfg, start, run[..|run| - 1]);
      StepKeeps(Exec(Init(cfg, start), run[..|run| - 1]), run[|run| - 1]);
    }
  }
}
