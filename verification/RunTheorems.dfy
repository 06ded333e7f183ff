/** What holds of whole runs: any number of killers and pollers, every interleaving. */
module RunTheorems {
  import opened Wrappers
  import opened CommandDomain
  import opened ExitMarker
  import opened RunProtocol
  import opened RunInvariants

  /** The state after the first i actions of a run. */
  function At(cfg: Config, start: int, run: seq<Action>, i: nat): Sys
    requires i <= |run|
  {
    Exec(Init(cfg, start), run[..i])
  }

  lemma ExecStep(s: Sys, run: seq<Action>, i: nat)
    requires i < |run|
    ensures Exec(s, run[..i + 1]) == Step(Exec(s, run[..i]), run[i])
  {
    assert run[..i + 1][..i] == run[..i];
  }

  /** One more action of a run, for replaying a concrete one. */
  lemma Replay(cfg: Config, start: int, run: seq<Action>, i: nat, s: Sys)
    requires i < |run| && At(cfg, start, run, i) == s
    ensures At(cfg, start, run, i + 1) == Step(s, run[i])
    ensures i + 1 == |run| ==> Exec(Init(cfg, start), run) == Step(s, run[i])
  {
    ExecStep(Init(cfg, start), run, i);
    WholeRun(run, i + 1);
  }

  lemma WholeRun(run: seq<Action>, n: nat)
    requires n <= |run|
    ensures n == |run| ==> run[..n] == run
  {
  }

  lemma AtStep(cfg: Config, start: int, run: seq<Action>, i: nat)
    requires i < |run| && ValidConfig(cfg)
    ensures At(cfg, start, run, i + 1) == Step(At(cfg, start, run, i), run[i])
    ensures Inv(At(cfg, start, run, i)) && Inv(At(cfg, start, run, i + 1))
    ensures At(cfg, start, run, i).cfg == cfg
  {
    ExecStep(Init(cfg, start), run, i);
    Reachable(cfg, start, run[..i]);
    Reachable(cfg, start, run[..i + 1]);
    ConfigFixed(cfg, start, run[..i]);
  }

  lemma {:induction false} ConfigFixed(cfg: Config, start: int, run: seq<Action>)
    ensures Exec(Init(cfg, start), run).cfg == cfg
  {
    if run != [] {
      ConfigFixed(cfg, start, run[..|run| - 1]);
      StepKeepsConfig(Exec(Init(cfg, start), run[..|run| - 1]), run[|run| - 1]);
    }
  }

  lemma StepKeepsConfig(s: Sys, a: Action)
    ensures Step(s, a).cfg == s.cfg
  {
    match a
    case Commit(w) => WriteKeepsConfig(s, w);
    case _ =>
  }

  lemma WriteKeepsConfig(s: Sys, w: Writer)
    ensures WriteStep(s, w).cfg == s.cfg
  {
  }

  // ----- Statuses only rise

  function Rank(st: Status): nat {
    match st
    case Running => 0
    case Killing => 1
    case Success => 2
    case Failed => 2
    case Killed => 3
  }

  predicate Risen(before: Status, after: Status) {
    before == after || Rank(before) < Rank(after)
  }

  /** One step: a status stays or rises, and only the initial save creates a record. */
  predicate Lawful(s: Sys, n: Sys) {
    && (!BeforeSave(s.pod.task) ==> !BeforeSave(n.pod.task))
    && (StatusOf(s).None? && StatusOf(n).Some? ==> BeforeSave(s.pod.task) && !BeforeSave(n.pod.task))
    && (StatusOf(s).Some? && StatusOf(n).Some? ==> Risen(StatusOf(s).value, StatusOf(n).value))
  }

  lemma TaskLawful(s: Sys, t: TaskAction)
    requires LaunchInv(s)
    ensures Lawful(s, TaskStep(s, t))
  {
  }

  lemma TaskWriteLawful(s: Sys)
    requires CollectedInv(s)
    ensures Lawful(s, WriteStep(s, TaskWriter))
  {
  }

  lemma KillWriteLawful(s: Sys, k: nat)
    ensures Lawful(s, WriteStep(s, KillWriter(k)))
  {
  }

  lemma PollWriteLawful(s: Sys, p: nat)
    ensures Lawful(s, WriteStep(s, PollWriter(p)))
  {
  }

  lemma StepLawful(s: Sys, a: Action)
    requires Inv(s)
    ensures Lawful(s, Step(s, a))
  {
    match a
    case Do(t) => TaskLawful(s, t);
    case Commit(w) =>
      match w {
        case TaskWriter => TaskWriteLawful(s);
        case KillWriter(k) => KillWriteLawful(s, k);
        case PollWriter(p) => PollWriteLawful(s, p);
      }
    case _ =>
  }

  /** Between any two moments of a run the status has stayed or risen in
      RUNNING < KILLING < {SUCCESS, FAILED} < KILLED; a record that is gone stays gone. */
  lemma {:induction false} StatusRises(cfg: Config, start: int, run: seq<Action>, i: nat, j: nat)
    requires ValidConfig(cfg) && i <= j <= |run|
    ensures var (s, n) := (At(cfg, start, run, i), At(cfg, start, run, j));
            && (!BeforeSave(s.pod.task) ==> !BeforeSave(n.pod.task))
            && (!BeforeSave(s.pod.task) && StatusOf(s).None? ==> StatusOf(n).None?)
            && (StatusOf(s).Some? && StatusOf(n).Some? ==> Risen(StatusOf(s).value, StatusOf(n).value))
  {
    if i < j {
      StatusRises(cfg, start, run, i, j - 1);
      AtStep(cfg, start, run, j - 1);
      StepLawful(At(cfg, start, run, j - 1), run[j - 1]);
      if StatusOf(At(cfg, start, run, i)).Some? {
        Reachable(cfg, start, run[..i]);
      }
    }
  }

  /** An expired record is never recreated: once the Run was saved, absence is final. */
  lemma ExpiredStaysExpired(cfg: Config, start: int, run: seq<Action>, i: nat, k: nat, j: nat)
    requires ValidConfig(cfg) && i <= k <= j <= |run|
    requires StatusOf(At(cfg, start, run, i)).Some? && StatusOf(At(cfg, start, run, k)).None?
    ensures StatusOf(At(cfg, start, run, j)).None?
  {
    Reachable(cfg, start, run[..i]);
    StatusRises(cfg, start, run, i, k);
    StatusRises(cfg, start, run, k, j);
  }

  /** How often the status of a present record has changed. */
  function Changes(cfg: Config, start: int, run: seq<Action>): nat {
    if run == [] then 0
    else
      var s := Exec(Init(cfg, start), run[..|run| - 1]);
      var n := Exec(Init(cfg, start), run);
      Changes(cfg, start, run[..|run| - 1])
      + (if StatusOf(s).Some? && StatusOf(n).Some? && StatusOf(s) != StatusOf(n) then 1 else 0)
  }

  /** A status changes at most three times in the whole life of a Run. */
  lemma {:induction false} AtMostThreeChanges(cfg: Config, start: int, run: seq<Action>)
    requires ValidConfig(cfg)
    ensures Changes(cfg, start, run) <= 3
    ensures var s := Exec(Init(cfg, start), run);
            && (BeforeSave(s.pod.task) ==> Changes(cfg, start, run) == 0)
            && (StatusOf(s).Some? ==> Changes(cfg, start, run) <= Rank(StatusOf(s).value))
  {
    if run != [] {
      var shorter := run[..|run| - 1];
      AtMostThreeChanges(cfg, start, shorter);
      Reachable(cfg, start, shorter);
      Reachable(cfg, start, run);
      StepLawful(Exec(Init(cfg, start), shorter), run[|run| - 1]);
    }
  }

  // ----- Direct finishes are final

  predicate Finished(s: Sys) {
    s.cell.Some? && (s.cell.value.rec.status.Success? || s.cell.value.rec.status.Failed?)
  }

  /** Saved, finished unless expired since, and never past the gate. */
  predicate DirectlyDone(s: Sys) {
    !BeforeSave(s.pod.task) && s.past.gate.None? && (s.cell.Some? ==> Finished(s))
  }

  /** Only the process groups and the expiry of the record may still differ. */
  predicate SameResult(s: Sys, n: Sys) {
    n.cell.Some? ==> s.cell.Some? && n.cell.value.rec == s.cell.value.rec.(pgids := n.cell.value.rec.pgids)
  }

  lemma TaskStaysDone(s: Sys)
    requires CollectedInv(s) && DirectlyDone(s)
    ensures DirectlyDone(WriteStep(s, TaskWriter)) && SameResult(s, WriteStep(s, TaskWriter))
  {
  }

  lemma KillStaysDone(s: Sys, k: nat)
    requires GateInv(s) && DirectlyDone(s)
    ensures DirectlyDone(WriteStep(s, KillWriter(k))) && SameResult(s, WriteStep(s, KillWriter(k)))
  {
    assert k in s.killers ==> !PastGate(s.killers[k].pc);
  }

  lemma PollStaysDone(s: Sys, p: nat)
    requires DirectlyDone(s)
    ensures DirectlyDone(WriteStep(s, PollWriter(p))) && SameResult(s, WriteStep(s, PollWriter(p)))
  {
  }

  lemma TaskStepStaysDone(s: Sys, t: TaskAction)
    requires DirectlyDone(s)
    ensures DirectlyDone(TaskStep(s, t)) && SameResult(s, TaskStep(s, t))
  {
  }

  lemma StaysDone(s: Sys, a: Action)
    requires GateInv(s) && CollectedInv(s) && DirectlyDone(s)
    ensures DirectlyDone(Step(s, a)) && SameResult(s, Step(s, a))
  {
    match a
    case Do(t) => TaskStepStaysDone(s, t);
    case Commit(w) =>
      match w {
        case TaskWriter => TaskStaysDone(s);
        case KillWriter(k) => KillStaysDone(s, k);
        case PollWriter(p) => PollStaysDone(s, p);
      }
    case _ =>
  }

  /** A Run whose record went from RUNNING straight to SUCCESS or FAILED keeps that result. */
  lemma {:induction false} DirectFinishIsFinal(cfg: Config, start: int, run: seq<Action>, i: nat, j: nat)
    requires ValidConfig(cfg) && i < j <= |run|
    requires StatusOf(At(cfg, start, run, i)) == Some(Running)
    requires Finished(At(cfg, start, run, i + 1))
    ensures DirectlyDone(At(cfg, start, run, j))
    ensures SameResult(At(cfg, start, run, i + 1), At(cfg, start, run, j))
  {
    if j == i + 1 {
      DoneAtOnce(cfg, start, run, i);
    } else {
      DirectFinishIsFinal(cfg, start, run, i, j - 1);
      DoneNext(cfg, start, run, j - 1);
      SameResultTrans(At(cfg, start, run, i + 1), At(cfg, start, run, j - 1), At(cfg, start, run, j));
    }
  }

  lemma DoneAtOnce(cfg: Config, start: int, run: seq<Action>, i: nat)
    requires ValidConfig(cfg) && i < |run|
    requires StatusOf(At(cfg, start, run, i)) == Some(Running) && Finished(At(cfg, start, run, i + 1))
    ensures DirectlyDone(At(cfg, start, run, i + 1))
  {
    AtStep(cfg, start, run, i);
    GateOnlyFromRunning(At(cfg, start, run, i), run[i]);
  }

  lemma DoneNext(cfg: Config, start: int, run: seq<Action>, i: nat)
    requires ValidConfig(cfg) && i < |run| && DirectlyDone(At(cfg, start, run, i))
    ensures DirectlyDone(At(cfg, start, run, i + 1))
    ensures SameResult(At(cfg, start, run, i), At(cfg, start, run, i + 1))
  {
    AtStep(cfg, start, run, i);
    StaysDone(At(cfg, start, run, i), run[i]);
  }

  lemma SameResultTrans(s: Sys, m: Sys, n: Sys)
    requires SameResult(s, m) && SameResult(m, n)
    ensures SameResult(s, n)
  {
  }

  lemma OnlyWritesOpenGate(s: Sys, a: Action)
    requires !a.Commit?
    ensures Step(s, a).past.gate == s.past.gate
  {
  }

  lemma WriteOpensGate(s: Sys, w: Writer)
    requires GateInv(s)
    ensures s.past.gate.Some? ==> WriteStep(s, w).past.gate == s.past.gate
    ensures s.past.gate.None? && WriteStep(s, w).past.gate.Some? ==>
              StatusOf(s) == Some(Running) && StatusOf(WriteStep(s, w)) == Some(Killing)
  {
    if w.KillWriter? && s.past.gate.Some? {
      assert s.cell.Some? ==> !s.cell.value.rec.status.Running?;
    }
  }

  /** The gate opens only by turning a RUNNING record into KILLING. */
  lemma GateOnlyFromRunning(s: Sys, a: Action)
    requires Inv(s)
    ensures s.past.gate.Some? ==> Step(s, a).past.gate == s.past.gate
    ensures s.past.gate.None? && Step(s, a).past.gate.Some? ==>
              StatusOf(s) == Some(Running) && StatusOf(Step(s, a)) == Some(Killing)
  {
    if a.Commit? {
      WriteOpensGate(s, a.w);
    } else {
      OnlyWritesOpenGate(s, a);
    }
  }

  // ----- One killer at a time

  /** At most one call of `kill_command` is ever past the gate, and every signal is its own. */
  lemma OneKillerPastGate(cfg: Config, start: int, run: seq<Action>, k: nat, m: nat)
    requires ValidConfig(cfg)
    requires var s := Exec(Init(cfg, start), run);
             && k in s.killers && PastGate(s.killers[k].pc)
             && ((m in s.killers && PastGate(s.killers[m].pc)) || exists i :: 0 <= i < |s.past.signals| && s.past.signals[i].0 == m)
    ensures k == m
  {
    Reachable(cfg, start, run);
  }

  /** Does this action write KILLED into a present record? */
  predicate WritesKilled(s: Sys, a: Action) {
    && a.Commit? && WriteOf(s, a.w).Some? && WriteOf(s, a.w).value.upd.ToKilled?
    && s.cell.Some?
  }

  lemma WriterKilledCounts(s: Sys, w: Writer)
    requires CollectedInv(s)
    ensures WriteStep(s, w).past.killedWrites == s.past.killedWrites + (if WritesKilled(s, Commit(w)) then 1 else 0)
  {
  }

  lemma KilledWriteCounts(s: Sys, a: Action)
    requires Inv(s)
    ensures Step(s, a).past.killedWrites == s.past.killedWrites + (if WritesKilled(s, a) then 1 else 0)
  {
    match a
    case Commit(w) => WriterKilledCounts(s, w);
    case _ =>
  }

  /** KILLED is written at most once. */
  lemma KilledWrittenOnce(cfg: Config, start: int, run: seq<Action>, i: nat, j: nat)
    requires ValidConfig(cfg) && i < j < |run|
    requires WritesKilled(At(cfg, start, run, i), run[i])
    ensures !WritesKilled(At(cfg, start, run, j), run[j])
  {
    AtStep(cfg, start, run, i);
    AtStep(cfg, start, run, j);
    KilledWriteCounts(At(cfg, start, run, i), run[i]);
    KilledWriteCounts(At(cfg, start, run, j), run[j]);
    KilledWritesGrow(cfg, start, run, i + 1, j);
  }

  lemma {:induction false} KilledWritesGrow(cfg: Config, start: int, run: seq<Action>, i: nat, j: nat)
    requires ValidConfig(cfg) && i <= j <= |run|
    ensures At(cfg, start, run, i).past.killedWrites <= At(cfg, start, run, j).past.killedWrites
  {
    if i < j {
      KilledWritesGrow(cfg, start, run, i, j - 1);
      AtStep(cfg, start, run, j - 1);
      KilledWriteCounts(At(cfg, start, run, j - 1), run[j - 1]);
    }
  }

  predicate BetweenGateAndFinish(pc: KillPc) {
    pc.Dispatching? || pc.Reading? || pc.Connecting? || pc.Signalling?
  }

  /** KILLING means: exactly one killer passed the gate, and it is still at work or was stranded. */
  lemma KillingExplained(cfg: Config, start: int, run: seq<Action>)
    requires ValidConfig(cfg)
    requires StatusOf(Exec(Init(cfg, start), run)) == Some(Killing)
    ensures var s := Exec(Init(cfg, start), run);
            exists k :: k in s.killers && s.past.gate == Some(k)
                        && (BetweenGateAndFinish(s.killers[k].pc) || s.killers[k].pc == Stopped(Stranded))
                        && s.cell.value.rec.message == Some(s.killers[k].message)
  {
    Reachable(cfg, start, run);
    var s := Exec(Init(cfg, start), run);
    var k := s.past.gate.value;
    assert k in s.killers && PastGate(s.killers[k].pc);
  }

  lemma WritesStrandNobody(s: Sys, a: Action, k: nat)
    requires k in s.killers && s.killers[k].pc != Stopped(Stranded)
    ensures a.Commit? ==> k in Step(s, a).killers && Step(s, a).killers[k].pc != Stopped(Stranded)
  {
  }

  /** A killer is stranded only by a missing SSH config, a failed connection or its own death. */
  lemma StrandedOnlyBy(s: Sys, a: Action, k: nat)
    requires k in s.killers && s.killers[k].pc != Stopped(Stranded)
    requires k in Step(s, a).killers && Step(s, a).killers[k].pc == Stopped(Stranded)
    ensures a == ByKiller(k, Read(false)) || a == ByKiller(k, Connect(false)) || a == ByKiller(k, Abandon)
    ensures PastGate(s.killers[k].pc)
  {
    WritesStrandNobody(s, a, k);
  }

  /** A heal that has read an exit code leaves the record neither RUNNING nor KILLING, for good. */
  lemma HealSettles(cfg: Config, start: int, run: seq<Action>, p: nat, i: nat, j: nat)
    requires ValidConfig(cfg) && i < j <= |run| && run[i] == Commit(PollWriter(p))
    requires var s := At(cfg, start, run, i); p in s.pollers && s.pollers[p].Healing?
    ensures var st := StatusOf(At(cfg, start, run, j)); st != Some(Running) && st != Some(Killing)
  {
    AtStep(cfg, start, run, i);
    var s, n := At(cfg, start, run, i), At(cfg, start, run, i + 1);
    HealWriteSettles(s, p);
    HealerComesAfterSave(s, p);
    StatusRises(cfg, start, run, i + 1, j);
  }

  lemma HealWriteSettles(s: Sys, p: nat)
    requires p in s.pollers && s.pollers[p].Healing?
    ensures var st := StatusOf(WriteStep(s, PollWriter(p))); st != Some(Running) && st != Some(Killing)
  {
    assert WriteOf(s, PollWriter(p)).Some?;
  }

  lemma HealerComesAfterSave(s: Sys, p: nat)
    requires LaunchInv(s) && MarkerInv(s) && p in s.pollers && s.pollers[p].Healing?
    ensures !BeforeSave(s.pod.task) && !BeforeSave(WriteStep(s, PollWriter(p)).pod.task)
  {
    assert PollerInv(s.cfg.logged, s.script.exitCode, s.pollers[p]);
    assert s.script.exitCode.Some?;
  }

  /** Once the sidecar exists, an undisturbed poll of a logged Run that is RUNNING or stuck in
      KILLING answers with, and stores, the verdict of the script's own exit code. */
  lemma PollHeals(s: Sys, p: nat, tail: Option<string>)
    requires IdentityInv(s) && MarkerInv(s) && ValidConfig(s.cfg)
    requires s.cfg.logged && s.script.exitFile.Some?
    requires StatusOf(s) == Some(Running) || StatusOf(s) == Some(Killing)
    requires p in s.pollers && s.pollers[p] == Fetching
    ensures var n := PollStep(WriteStep(PollStep(PollStep(s, p, Fetch), p, LookAtMarker(true, tail)), PollWriter(p)), p, Reread);
            && n.cell.Some? && Reflects(n.cell.value.rec, s.script.exitCode)
            && n.pollers[p] == Answered(Some(n.cell.value.rec))
  {
    MarkerRoundTrip(s.script.exitCode.value);
    var a := PollStep(s, p, Fetch);
    assert a.pollers[p] == ReadingMarker(s.cell.value.rec);
    var b := PollStep(a, p, LookAtMarker(true, tail));
    HealReflects(b, p);
  }

  lemma HealReflects(s: Sys, p: nat)
    requires StatusOf(s) == Some(Running) || StatusOf(s) == Some(Killing)
    requires p in s.pollers && s.pollers[p].Healing?
    requires s.script.exitCode.Some? && s.pollers[p].code == s.script.exitCode.value
    ensures var n := PollStep(WriteStep(s, PollWriter(p)), p, Reread);
            && n.cell.Some? && Reflects(n.cell.value.rec, s.script.exitCode)
            && n.pollers[p] == Answered(Some(n.cell.value.rec))
  {
    assert WriteStep(s, PollWriter(p)).pollers[p] == Rereading;
  }

  /** SUCCESS and FAILED are not final once a killer is past the gate: its last write puts KILLED
      over a heal's verdict and keeps the exit code. */
  lemma KilledOverwritesHeal(s: Sys, k: nat)
    requires Inv(s) && Finished(s) && k in s.killers && s.killers[k].pc == Signalling([])
    ensures var n := Step(s, Commit(KillWriter(k)));
            && StatusOf(n) == Some(Killed)
            && s.cfg.logged && s.script.exitCode.Some?
            && n.cell.value.rec.exitCode == Some(s.script.exitCode.value)
  {
    assert PastGate(s.killers[k].pc);
  }

  // ----- Killable

  /** A Run that is not killable becomes KILLING or KILLED only if some call carried force. */
  lemma OnlyForceKillsProtected(cfg: Config, start: int, run: seq<Action>)
    requires ValidConfig(cfg) && !cfg.killable
    requires var st := StatusOf(Exec(Init(cfg, start), run)); st == Some(Killing) || st == Some(Killed)
    ensures exists k :: ForcedIn(run, k)
  {
    Reachable(cfg, start, run);
    ConfigFixed(cfg, start, run);
    var s := Exec(Init(cfg, start), run);
    var k := s.past.gate.value;
    assert PastGate(s.killers[k].pc) && s.killers[k].force;
    ForceComesFromBegin(cfg, start, run, k);
  }

  /** Some call, recorded under this id, began with force=true. */
  predicate ForcedIn(run: seq<Action>, k: nat) {
    exists i :: 0 <= i < |run| && run[i].ByKiller? && run[i].k == k && run[i].ka.Begin? && run[i].ka.force
  }

  lemma {:induction false} ForceComesFromBegin(cfg: Config, start: int, run: seq<Action>, k: nat)
    requires var s := Exec(Init(cfg, start), run); k in s.killers && s.killers[k].force
    ensures ForcedIn(run, k)
  {
    var shorter := run[..|run| - 1];
    var s, a := Exec(Init(cfg, start), shorter), run[|run| - 1];
    if k in s.killers {
      ForceKept(s, a, k);
      ForceComesFromBegin(cfg, start, shorter, k);
      assert forall i :: 0 <= i < |shorter| ==> run[i] == shorter[i];
    } else {
      ForceBegins(s, a, k);
    }
  }

  lemma ForceBegins(s: Sys, a: Action, k: nat)
    requires k !in s.killers && k in Step(s, a).killers && Step(s, a).killers[k].force
    ensures a.ByKiller? && a.k == k && a.ka.Begin? && a.ka.force
  {
    WritesAddNoKiller(s, a);
  }

  lemma WritesAddNoKiller(s: Sys, a: Action)
    ensures a.Commit? ==> Step(s, a).killers.Keys == s.killers.Keys
  {
  }

  lemma ForceKept(s: Sys, a: Action, k: nat)
    requires k in s.killers
    ensures k in Step(s, a).killers && Step(s, a).killers[k].force == s.killers[k].force
  {
  }

  /** Is this a step of that killer? */
  predicate IsKillersStep(a: Action, k: nat) {
    (a.ByKiller? && a.k == k) || a == Commit(KillWriter(k))
  }

  lemma UnforcedStepIsHarmless(s: Sys, a: Action, k: nat)
    requires Inv(s) && !s.cfg.killable && k in s.killers && !s.killers[k].force && IsKillersStep(a, k)
    ensures Step(s, a).cell == s.cell && Step(s, a).past == s.past
  {
    assert !PastGuard(s.killers[k].pc);
  }

  /** Timeouts and shutdown never carry force: over any run of a protected Run, on whichever pod,
      no step of such a call writes the record, and every signal ever sent is that of a call that
      began with force. */
  lemma UnforcedKillIsHarmless(cfg: Config, start: int, run: seq<Action>)
    requires ValidConfig(cfg) && !cfg.killable
    ensures forall i, k :: 0 <= i < |run| && IsKillersStep(run[i], k)
              && k in At(cfg, start, run, i).killers && !At(cfg, start, run, i).killers[k].force
              ==> At(cfg, start, run, i + 1).cell == At(cfg, start, run, i).cell
                  && At(cfg, start, run, i + 1).past == At(cfg, start, run, i).past
    ensures var sent := Exec(Init(cfg, start), run).past.signals;
            forall m :: 0 <= m < |sent| ==> ForcedIn(run, sent[m].0)
  {
    forall i, k | 0 <= i < |run| && IsKillersStep(run[i], k)
                  && k in At(cfg, start, run, i).killers && !At(cfg, start, run, i).killers[k].force
      ensures At(cfg, start, run, i + 1).cell == At(cfg, start, run, i).cell
              && At(cfg, start, run, i + 1).past == At(cfg, start, run, i).past
    {
      AtStep(cfg, start, run, i);
      UnforcedStepIsHarmless(At(cfg, start, run, i), run[i], k);
    }
    var s := Exec(Init(cfg, start), run);
    forall m | 0 <= m < |s.past.signals|
      ensures ForcedIn(run, s.past.signals[m].0)
    {
      SignalsAreForced(cfg, start, run, m);
    }
  }

  lemma SignalsAreForced(cfg: Config, start: int, run: seq<Action>, m: nat)
    requires ValidConfig(cfg) && !cfg.killable && m < |Exec(Init(cfg, start), run).past.signals|
    ensures ForcedIn(run, Exec(Init(cfg, start), run).past.signals[m].0)
  {
    Reachable(cfg, start, run);
    ConfigFixed(cfg, start, run);
    var s := Exec(Init(cfg, start), run);
    var k := s.past.signals[m].0;
    assert k in s.killers && PastGate(s.killers[k].pc);
    ForceComesFromBegin(cfg, start, run, k);
  }

  // ----- Confluence

  /** This write gives the record its result. */
  predicate Decides(s: Sys, a: Action) {
    a.Commit? && !Finished(s) && Finished(Step(s, a))
  }

  /** The write a decision makes tells the script's exit code: a heal's always, the fast path's if
      that is what it collected, an exception's never. */
  predicate TellsCode(s: Sys, w: Writer, exitCode: Option<nat>) {
    match w
    case PollWriter(_) => true
    case TaskWriter =>
      && s.pod.task.Storing? && s.pod.collected.Some?
      && exitCode.Some? && s.pod.collected.value.0 == Some(exitCode.value)
    case KillWriter(_) => false
  }

  lemma TaskDecidesNothing(s: Sys, t: TaskAction)
    requires LaunchInv(s)
    ensures Finished(TaskStep(s, t)) ==> Finished(s) && SameResult(s, TaskStep(s, t))
    ensures TaskStep(s, t).script == s.script
  {
  }

  lemma OnlyWritesDecide(s: Sys, a: Action)
    requires LaunchInv(s) && MarkerInv(s) && !a.Commit?
    ensures Finished(Step(s, a)) ==> Finished(s) && SameResult(s, Step(s, a))
    ensures s.script.exitCode.Some? ==> Step(s, a).script.exitCode == s.script.exitCode
  {
    match a
    case Do(t) => TaskDecidesNothing(s, t);
    case _ =>
  }

  lemma WriteKeepsFinished(s: Sys, w: Writer)
    requires Finished(s)
    ensures Finished(WriteStep(s, w)) ==> SameResult(s, WriteStep(s, w))
  {
  }

  lemma WriteKeepsScript(s: Sys, w: Writer)
    ensures WriteStep(s, w).script == s.script
  {
  }

  /** A result that is still a result is the same result. */
  lemma StepKeepsResult(s: Sys, a: Action)
    requires LaunchInv(s) && MarkerInv(s)
    ensures Finished(s) && Finished(Step(s, a)) ==> SameResult(s, Step(s, a))
    ensures Finished(Step(s, a)) ==> Finished(s) || Decides(s, a)
    ensures s.script.exitCode.Some? ==> Step(s, a).script.exitCode == s.script.exitCode
  {
    if a.Commit? {
      WriteKeepsScript(s, a.w);
      if Finished(s) {
        WriteKeepsFinished(s, a.w);
      }
    } else {
      OnlyWritesDecide(s, a);
    }
  }

  /** Every result was decided by one write, and has stayed as that write left it. */
  lemma {:induction false} ResultHasDecision(cfg: Config, start: int, run: seq<Action>) returns (i: nat)
    requires ValidConfig(cfg) && Finished(Exec(Init(cfg, start), run))
    ensures i < |run| && Decides(At(cfg, start, run, i), run[i])
  {
    i := |run| - 1;
    AtStep(cfg, start, run, i);
    assert run[..|run|] == run;
    StepKeepsResult(At(cfg, start, run, i), run[i]);
    if Finished(At(cfg, start, run, i)) {
      var shorter := run[..|run| - 1];
      i := ResultHasDecision(cfg, start, shorter);
      assert shorter[..i] == run[..i];
    }
  }

  lemma FinishedBetween(cfg: Config, start: int, run: seq<Action>, i: nat, m: nat, j: nat)
    requires ValidConfig(cfg) && i <= m <= j <= |run|
    requires Finished(At(cfg, start, run, i)) && Finished(At(cfg, start, run, j))
    ensures Finished(At(cfg, start, run, m))
  {
    Reachable(cfg, start, run[..i]);
    StatusRises(cfg, start, run, i, m);
    StatusRises(cfg, start, run, m, j);
  }

  lemma NextKeepsResult(cfg: Config, start: int, run: seq<Action>, i: nat)
    requires ValidConfig(cfg) && i < |run|
    requires Finished(At(cfg, start, run, i)) && Finished(At(cfg, start, run, i + 1))
    ensures SameResult(At(cfg, start, run, i), At(cfg, start, run, i + 1))
  {
    AtStep(cfg, start, run, i);
    StepKeepsResult(At(cfg, start, run, i), run[i]);
  }

  lemma {:induction false} ResultStays(cfg: Config, start: int, run: seq<Action>, i: nat, j: nat)
    requires ValidConfig(cfg) && i <= j <= |run|
    requires Finished(At(cfg, start, run, i)) && Finished(At(cfg, start, run, j))
    ensures SameResult(At(cfg, start, run, i), At(cfg, start, run, j))
  {
    if i < j {
      FinishedBetween(cfg, start, run, i, j - 1, j);
      ResultStays(cfg, start, run, i, j - 1);
      NextKeepsResult(cfg, start, run, j - 1);
      SameResultTrans(At(cfg, start, run, i), At(cfg, start, run, j - 1), At(cfg, start, run, j));
    }
  }

  lemma {:induction false} ExitCodeStays(cfg: Config, start: int, run: seq<Action>, i: nat, j: nat)
    requires ValidConfig(cfg) && i <= j <= |run|
    requires At(cfg, start, run, i).script.exitCode.Some?
    ensures At(cfg, start, run, j).script.exitCode == At(cfg, start, run, i).script.exitCode
  {
    if i < j {
      ExitCodeStays(cfg, start, run, i, j - 1);
      AtStep(cfg, start, run, j - 1);
      StepKeepsResult(At(cfg, start, run, j - 1), run[j - 1]);
    }
  }

  lemma TaskDecision(s: Sys, exitCode: Option<nat>)
    requires CollectedInv(s) && ResultInv(s) && Decides(s, Commit(TaskWriter))
    ensures StatusOf(s) == Some(Running)
    ensures Reflects(WriteStep(s, TaskWriter).cell.value.rec, exitCode) <==> TellsCode(s, TaskWriter, exitCode)
  {
  }

  lemma HealDecision(s: Sys, p: nat)
    requires MarkerInv(s) && ResultInv(s) && Decides(s, Commit(PollWriter(p)))
    ensures StatusOf(s) == Some(Running) || StatusOf(s) == Some(Killing)
    ensures s.script.exitCode.Some? && Reflects(WriteStep(s, PollWriter(p)).cell.value.rec, s.script.exitCode)
  {
    assert PollerInv(s.cfg.logged, s.script.exitCode, s.pollers[p]);
  }

  lemma KillersDecideNothing(s: Sys, k: nat)
    ensures !Decides(s, Commit(KillWriter(k)))
  {
  }

  lemma DecisionTells(s: Sys, w: Writer, exitCode: Option<nat>)
    requires Inv(s) && Decides(s, Commit(w))
    requires s.script.exitCode.Some? ==> exitCode == s.script.exitCode
    ensures Reflects(WriteStep(s, w).cell.value.rec, exitCode) <==> TellsCode(s, w, exitCode)
    ensures w.TaskWriter? ==> StatusOf(s) == Some(Running)
  {
    match w
    case TaskWriter => TaskDecision(s, exitCode);
    case KillWriter(k) => KillersDecideNothing(s, k);
    case PollWriter(p) => HealDecision(s, p);
  }

  /** Whoever decided, fast path or any heal on any pod, the finished record says what the script's
      exit code says if and only if that one write told it: always if it was a heal, else exactly
      if the fast path stored a collected code and that is the script's. The fast path decides
      only over RUNNING. */
  lemma Confluence(cfg: Config, start: int, run: seq<Action>, i: nat)
    requires ValidConfig(cfg) && i < |run| && Decides(At(cfg, start, run, i), run[i])
    requires Finished(Exec(Init(cfg, start), run))
    ensures var (s, end) := (At(cfg, start, run, i), Exec(Init(cfg, start), run));
            && (Reflects(end.cell.value.rec, end.script.exitCode) <==> TellsCode(s, run[i].w, end.script.exitCode))
            && (run[i].w.TaskWriter? ==> StatusOf(s) == Some(Running))
  {
    assert run[..|run|] == run;
    if At(cfg, start, run, i).script.exitCode.Some? {
      ExitCodeStays(cfg, start, run, i, |run|);
    }
    DecisionAt(cfg, start, run, i, Exec(Init(cfg, start), run).script.exitCode);
    ResultStays(cfg, start, run, i + 1, |run|);
    SameReflects(At(cfg, start, run, i + 1), Exec(Init(cfg, start), run));
  }

  lemma DecisionAt(cfg: Config, start: int, run: seq<Action>, i: nat, exitCode: Option<nat>)
    requires ValidConfig(cfg) && i < |run| && Decides(At(cfg, start, run, i), run[i])
    requires At(cfg, start, run, i).script.exitCode.Some? ==> exitCode == At(cfg, start, run, i).script.exitCode
    ensures var (s, n) := (At(cfg, start, run, i), At(cfg, start, run, i + 1));
            && Finished(n)
            && (Reflects(n.cell.value.rec, exitCode) <==> TellsCode(s, run[i].w, exitCode))
            && (run[i].w.TaskWriter? ==> StatusOf(s) == Some(Running))
  {
    AtStep(cfg, start, run, i);
    DecisionTells(At(cfg, start, run, i), run[i].w, exitCode);
  }

  lemma SameReflects(s: Sys, n: Sys)
    requires Finished(s) && Finished(n) && SameResult(s, n)
    ensures forall exitCode :: Reflects(n.cell.value.rec, exitCode) <==> Reflects(s.cell.value.rec, exitCode)
  {
  }

  /** A heal that came first over RUNNING is the last word: whatever the task collected, or failed
      to collect, a record that is still there shows the script's verdict. */
  lemma HealWins(cfg: Config, start: int, run: seq<Action>, p: nat, i: nat, j: nat)
    requires ValidConfig(cfg) && i < j <= |run|
    requires run[i] == Commit(PollWriter(p)) && StatusOf(At(cfg, start, run, i)) == Some(Running)
    requires Finished(At(cfg, start, run, i + 1))
    ensures var n := At(cfg, start, run, j);
            n.cell.Some? ==> Finished(n) && Reflects(n.cell.value.rec, n.script.exitCode)
  {
    DirectFinishIsFinal(cfg, start, run, i, j);
    if At(cfg, start, run, j).cell.Some? {
      AtStep(cfg, start, run, i);
      assert run[..j][..i] == run[..i];
      Confluence(cfg, start, run[..j], i);
    }
  }

  /** A result that is not the script's was written over RUNNING by the task, and is not what the
      task collected from the script. */
  lemma WrongResultIsTheTasks(cfg: Config, start: int, run: seq<Action>) returns (i: nat)
    requires ValidConfig(cfg)
    requires var end := Exec(Init(cfg, start), run);
             Finished(end) && !Reflects(end.cell.value.rec, end.script.exitCode)
    ensures i < |run| && run[i] == Commit(TaskWriter)
    ensures var s := At(cfg, start, run, i);
            && StatusOf(s) == Some(Running) && Decides(s, run[i])
            && !TellsCode(s, TaskWriter, Exec(Init(cfg, start), run).script.exitCode)
  {
    i := ResultHasDecision(cfg, start, run);
    Confluence(cfg, start, run, i);
    AtStep(cfg, start, run, i);
    match run[i].w
    case KillWriter(k) => KillersDecideNothing(At(cfg, start, run, i), k);
    case _ =>
  }

  /** Two schedules of the same script outcome, each decided by a write that told the exit code, end
      in the same status and exit code. */
  lemma SchedulesAgree(cfg: Config, start: int, run: seq<Action>, i: nat,
                       cfg': Config, start': int, run': seq<Action>, i': nat)
    requires ValidConfig(cfg) && ValidConfig(cfg')
    requires i < |run| && Decides(At(cfg, start, run, i), run[i])
    requires i' < |run'| && Decides(At(cfg', start', run', i'), run'[i'])
    requires var (s, t) := (Exec(Init(cfg, start), run), Exec(Init(cfg', start'), run'));
             && Finished(s) && Finished(t) && s.script.exitCode == t.script.exitCode
             && TellsCode(At(cfg, start, run, i), run[i].w, s.script.exitCode)
             && TellsCode(At(cfg', start', run', i'), run'[i'].w, t.script.exitCode)
    ensures var (s, t) := (Exec(Init(cfg, start), run), Exec(Init(cfg', start'), run'));
            && s.cell.value.rec.status == t.cell.value.rec.status
            && s.cell.value.rec.exitCode == t.cell.value.rec.exitCode
  {
    Confluence(cfg, start, run, i);
    Confluence(cfg', start', run', i');
  }

  /** However far the temporary file and the rename have got, a reader sees no marker or the exact code. */
  lemma MarkerTellsTheTruth(cfg: Config, start: int, run: seq<Action>)
    requires ValidConfig(cfg)
    ensures var sc := Exec(Init(cfg, start), run).script;
            if sc.exitFile.None? then ReadMarker(sc.exitFile).None?
            else sc.exitCode.Some? && ReadMarker(sc.exitFile) == Some(sc.exitCode.value)
  {
    Reachable(cfg, start, run);
    var sc := Exec(Init(cfg, start), run).script;
    if sc.exitFile.Some? {
      MarkerRoundTrip(sc.exitCode.value);
    }
  }

  // ----- The record's result

  /** Every reachable record has the result fields of its status. */
  lemma RecordsAreWellFormed(cfg: Config, start: int, run: seq<Action>)
    requires ValidConfig(cfg) && Exec(Init(cfg, start), run).cell.Some?
    ensures ResultFields(Exec(Init(cfg, start), run).cell.value.rec)
  {
    Reachable(cfg, start, run);
  }

  /** A Run that promises JSON is never healed: no poll ever looks for its marker, and its
      SUCCESS output is what its own task collected. So `output_unavailable` is reported
      exactly when the command printed nothing. */
  lemma JsonOutputIsCollected<V>(cfg: Config, start: int, run: seq<Action>, parse: string -> Option<V>)
    requires ValidConfig(cfg) && cfg.contract.Json?
    ensures var s := Exec(Init(cfg, start), run);
            && (forall p :: p in s.pollers ==> !s.pollers[p].ReadingMarker? && !s.pollers[p].Healing?)
            && (s.cell.Some? ==>
                  var r := s.cell.value.rec;
                  && FormatAllowed(r, JsonFormat)
                  && (!r.status.Success? ==> ParseOutput(r, parse) == Err(NotApplicable))
                  && (r.status.Success? ==>
                        && s.pod.collected.Some? && s.pod.collected.value.0 == Some(0)
                        && var out := s.pod.collected.value.1;
                           ParseOutput(r, parse) ==
                           (if out == "" then Err(OutputUnavailable)
                            else if parse(out).Some? then Ok(parse(out).value) else Err(ParseFailed))))
  {
    Reachable(cfg, start, run);
    ConfigFixed(cfg, start, run);
    var s := Exec(Init(cfg, start), run);
    forall p | p in s.pollers
      ensures !s.pollers[p].ReadingMarker? && !s.pollers[p].Healing?
    {
      assert PollerInv(s.cfg.logged, s.script.exitCode, s.pollers[p]);
    }
  }

  /** A result of a Run without a log is what its own task collected, exit code and whole output,
      or it stands for a failure of the task itself and has neither. */
  lemma UnloggedResultIsCollected(cfg: Config, start: int, run: seq<Action>)
    requires ValidConfig(cfg) && !cfg.logged && Finished(Exec(Init(cfg, start), run))
    ensures var s := Exec(Init(cfg, start), run);
            var r := s.cell.value.rec;
            if r.output.Some? then s.pod.collected == Some((r.exitCode, r.output.value))
            else r.status.Failed? && r.exitCode.None?
  {
    Reachable(cfg, start, run);
    ConfigFixed(cfg, start, run);
  }

  // ----- Clean-up

  /** A task that has ended closed its connection and left the pool exactly once; no task ever
      does either twice. */
  lemma CleanedUpOnce(cfg: Config, start: int, run: seq<Action>)
    requires ValidConfig(cfg)
    ensures var pod := Exec(Init(cfg, start), run).pod;
            && pod.closes == pod.removes == (if pod.task.Ended? then 1 else 0)
            && (pod.task.Ended? ==> !pod.pooled)
            && (Executing(pod.task) || pod.task.TimingOut? || pod.task.StoringFault? || pod.task.Cleaning? ==> pod.pooled)
  {
    Reachable(cfg, start, run);
  }
}
